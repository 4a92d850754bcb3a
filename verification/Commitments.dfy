/** The commitment store: held claims, quarantined claims, and the lineage of every held claim.
    `lower` stands for the library's lower-casing. */
module Commitments {
  import opened Options
  import Text
  import Types

  type CommitmentId = nat

  datatype Payload = Payload(
    statement: string, confidence: real, origin: string, turnSeq: nat, deps: seq<CommitmentId>, topic: string)

  datatype Held = Held(payload: Payload, turn: nat)

  datatype LineageEvent =
    | Committed(turn: nat)
    | Revised(turn: nat)
    | Retracted(turn: nat, reason: string)
    | Promoted(turn: nat)

  datatype Contradiction = Contradiction(left: CommitmentId, right: CommitmentId, kind: string, turn: nat)

  datatype Store = Store(
    active: map<CommitmentId, Held>,
    quarantine: map<CommitmentId, Held>,
    lineage: map<CommitmentId, seq<LineageEvent>>,
    contradictions: seq<Contradiction>,
    nextId: nat)
  {
    function Size(): nat {
      |active| + |quarantine|
    }

    function Ids(): set<CommitmentId> {
      active.Keys + quarantine.Keys
    }

    /** The payload behind every id. */
    function Payloads(): map<CommitmentId, Payload> {
      map id | id in active.Keys + quarantine.Keys
        :: if id in quarantine then quarantine[id].payload else active[id].payload
    }
  }

  const EMPTY := Store(map[], map[], map[], [], 0)

  const MAX_COMMITMENTS: nat := 1_024

  datatype CommitResult = New(id: CommitmentId) | Duplicate(id: CommitmentId) | CapacityReached

  // ---------- Normalised keys ----------

  type Lower = string -> string

  /** `split_whitespace`, with a word under construction. */
  function Words(s: string, word: string): seq<string> {
    if s == "" then (if word == "" then [] else [word])
    else if Text.IsWhitespace(s[0]) then (if word == "" then [] else [word]) + Words(s[1..], "")
    else Words(s[1..], word + [s[0]])
  }

  function Key(lower: Lower, p: Payload): (string, string) {
    (lower(p.topic), lower(Types.Join(Words(p.statement, ""), " ")))
  }

  predicate HasKey(lower: Lower, held: map<CommitmentId, Held>, id: CommitmentId, p: Payload) {
    id in held && Key(lower, held[id].payload) == Key(lower, p)
  }

  // ---------- Operations ----------

  /** The least id of a table whose payload has the key of `p`: the first one met in id order. */
  ghost predicate IsFirstMatch(lower: Lower, held: map<CommitmentId, Held>, p: Payload, id: CommitmentId) {
    HasKey(lower, held, id, p) && forall other :: HasKey(lower, held, other, p) ==> id <= other
  }

  lemma {:induction false} LeastExists(ids: set<CommitmentId>)
    requires ids != {}
    ensures exists id :: id in ids && forall other :: other in ids ==> id <= other
    decreases ids
  {
    var x :| x in ids;
    var rest := ids - {x};
    if rest == {} {
      assert ids == {x};
    } else {
      LeastExists(rest);
      var y :| y in rest && forall other :: other in rest ==> y <= other;
      var least := if x < y then x else y;
      assert forall other :: other in ids ==> other == x || other in rest;
      assert least in ids && forall other :: other in ids ==> least <= other;
    }
  }

  function FirstMatch(lower: Lower, held: map<CommitmentId, Held>, p: Payload): (r: Option<CommitmentId>)
    ensures r.None? <==> forall id :: !HasKey(lower, held, id, p)
    ensures r.Some? ==> IsFirstMatch(lower, held, p, r.value)
  {
    var hits := set id | id in held && HasKey(lower, held, id, p);
    assert forall id :: HasKey(lower, held, id, p) <==> id in hits;
    if hits == {} then None
    else
      LeastExists(hits);
      var id :| id in hits && forall other :: other in hits ==> id <= other;
      Some(id)
  }

  /** Active commitments are searched before quarantined ones. */
  function FindDuplicate(lower: Lower, p: Payload, store: Store): Option<CommitmentId> {
    var first := FirstMatch(lower, store.active, p);
    if first.Some? then first else FirstMatch(lower, store.quarantine, p)
  }

  function Added(p: Payload, turn: nat, store: Store): Store {
    store.(
      nextId := store.nextId + 1,
      active := store.active[store.nextId := Held(p, turn)],
      lineage := store.lineage[store.nextId := [Committed(turn)]])
  }

  /** The common part of `commit` and `commit_observation`, which differ in the turn they record. */
  function CommitAt(lower: Lower, p: Payload, turn: nat, store: Store): (Store, CommitResult) {
    var existing := FindDuplicate(lower, p, store);
    var id := store.nextId;
    if existing.Some? then (store, Duplicate(existing.value))
    else if store.Size() >= MAX_COMMITMENTS then (store, CapacityReached)
    else if id in store.active || id in store.quarantine then (store, Duplicate(id))
    else (Added(p, turn, store), New(id))
  }

  function Commit(lower: Lower, p: Payload, store: Store): (Store, CommitResult) {
    CommitAt(lower, p, 0, store)
  }

  function CommitObservation(lower: Lower, p: Payload, store: Store): (Store, CommitResult) {
    CommitAt(lower, p, p.turnSeq, store)
  }

  function QuarantineObservation(p: Payload, store: Store): (Store, CommitmentId) {
    var id := store.nextId;
    (store.(nextId := id + 1, quarantine := store.quarantine[id := Held(p, p.turnSeq)]), id)
  }

  function Append(lineage: map<CommitmentId, seq<LineageEvent>>, id: CommitmentId, event: LineageEvent)
    : map<CommitmentId, seq<LineageEvent>>
  {
    lineage[id := (if id in lineage then lineage[id] else []) + [event]]
  }

  /** `None` when the id is not an active commitment. */
  function Revise(id: CommitmentId, p: Payload, turn: nat, store: Store): Option<Store> {
    if id !in store.active then None
    else
      Some(store.(
        active := store.active[id := Held(p, turn)],
        lineage := Append(store.lineage, id, Revised(turn))))
  }

  function Contradict(c: Contradiction, store: Store): Store {
    store.(contradictions := store.contradictions + [c])
  }

  function Matching(store: Store, topic: string): set<CommitmentId> {
    set id | id in store.quarantine && store.quarantine[id].payload.topic == topic
  }

  /** Moving the entries in `ids` out of quarantine. */
  function Moved(store: Store, ids: set<CommitmentId>, turn: nat): Store
    requires ids <= store.quarantine.Keys
  {
    store.(
      active := map id | id in store.active.Keys + ids
                  :: if id in ids then Held(store.quarantine[id].payload, turn) else store.active[id],
      quarantine := store.quarantine - ids,
      lineage := map id | id in store.lineage.Keys + ids
                   :: if id in ids
                      then (if id in store.lineage then store.lineage[id] else []) + [LineageEvent.Promoted(turn)]
                      else store.lineage[id])
  }

  function Promote(store: Store, topic: string, turn: nat): Store {
    Moved(store, Matching(store, topic), turn)
  }

  /** Moving one entry more. */
  lemma MoveOne(store: Store, done: set<CommitmentId>, id: CommitmentId, turn: nat)
    requires done <= store.quarantine.Keys && id in store.quarantine && id !in done
    ensures var was := Moved(store, done, turn);
            && id in was.quarantine
            && Moved(store, done + {id}, turn)
               == was.(
                 quarantine := was.quarantine - {id},
                 active := was.active[id := Held(was.quarantine[id].payload, turn)],
                 lineage := Append(was.lineage, id, LineageEvent.Promoted(turn)))
  {
    var was, now := Moved(store, done, turn), Moved(store, done + {id}, turn);
    assert now.active == was.active[id := Held(was.quarantine[id].payload, turn)];
    assert now.quarantine == was.quarantine - {id};
    assert now.lineage == Append(was.lineage, id, LineageEvent.Promoted(turn));
  }

  lemma MoveNone(store: Store, turn: nat)
    ensures Moved(store, {}, turn) == store
  {
    var moved := Moved(store, {}, turn);
    assert moved.active == store.active && moved.quarantine == store.quarantine && moved.lineage == store.lineage;
  }

  method PromoteMatchingQuarantine(store: Store, topic: string, turn: nat) returns (promoted: Store)
    ensures promoted == Promote(store, topic, turn)
  {
    hide Moved, Append;
    promoted := store;
    var toPromote := Matching(store, topic);
    ghost var done: set<CommitmentId> := {};
    MoveNone(store, turn);
    while toPromote != {}
      invariant toPromote !! done && toPromote + done == Matching(store, topic)
      invariant promoted == Moved(store, done, turn)
      decreases toPromote
    {
      var id :| id in toPromote;
      MoveOne(store, done, id, turn);
      var payload := promoted.quarantine[id].payload;
      promoted := promoted.(
        quarantine := promoted.quarantine - {id},
        active := promoted.active[id := Held(payload, turn)],
        lineage := Append(promoted.lineage, id, LineageEvent.Promoted(turn)));
      toPromote, done := toPromote - {id}, done + {id};
    }
    assert done == Matching(store, topic);
  }

  // ---------- What every run keeps ----------

  function TurnOf(e: LineageEvent): nat {
    e.turn
  }

  /** Ids are handed out without gaps and never lost, a claim is held or quarantined but not both, and
      exactly the held claims have a lineage, whose last event carries the claim's turn. */
  ghost predicate Sound(store: Store) {
    IdsSound(store) && LineageSound(store)
  }

  ghost predicate IdsSound(store: Store) {
    && store.active.Keys !! store.quarantine.Keys
    && (forall id: nat :: id in store.active || id in store.quarantine <==> id < store.nextId)
    && store.lineage.Keys == store.active.Keys
  }

  ghost predicate LineageSound(store: Store) {
    forall id :: id in store.active ==> LineageEnds(store, id)
  }

  /** The lineage of an active entry ends in its turn. */
  ghost predicate LineageEnds(store: Store, id: CommitmentId)
    requires id in store.active
  {
    && id in store.lineage && store.lineage[id] != []
    && TurnOf(store.lineage[id][|store.lineage[id]| - 1]) == store.active[id].turn
  }

  datatype Op =
    | CommitOp(payload: Payload)
    | CommitObservationOp(payload: Payload)
    | QuarantineOp(payload: Payload)
    | ReviseOp(id: CommitmentId, payload: Payload, turn: nat)
    | ContradictOp(contradiction: Contradiction)
    | PromoteOp(topic: string, turn: nat)

  function Step(lower: Lower, store: Store, op: Op): Store {
    match op
    case CommitOp(p) => Commit(lower, p, store).0
    case CommitObservationOp(p) => CommitObservation(lower, p, store).0
    case QuarantineOp(p) => QuarantineObservation(p, store).0
    case ReviseOp(id, p, turn) =>
      (match Revise(id, p, turn, store)
       case Some(revised) => revised
       case None => store)
    case ContradictOp(c) => Contradict(c, store)
    case PromoteOp(topic, turn) => Promote(store, topic, turn)
  }

  function Run(lower: Lower, store: Store, ops: seq<Op>): Store
    decreases |ops|
  {
    if ops == [] then store else Run(lower, Step(lower, store, ops[0]), ops[1..])
  }

  /** `later` still has every id, every held claim and every lineage of `earlier`, lineages at most
      longer. */
  ghost predicate Extends(earlier: Store, later: Store) {
    && earlier.nextId <= later.nextId
    && earlier.Ids() <= later.Ids()
    && earlier.active.Keys <= later.active.Keys
    && forall id :: id in earlier.lineage ==> id in later.lineage && earlier.lineage[id] <= later.lineage[id]
  }

  ghost predicate Keeps(store: Store, next: Store) {
    Sound(next) && Extends(store, next)
  }

  lemma AddedKeepsSound(p: Payload, turn: nat, store: Store)
    requires Sound(store)
    ensures Keeps(store, Added(p, turn, store))
  {
  }

  lemma CommitKeepsSound(lower: Lower, p: Payload, turn: nat, store: Store)
    requires Sound(store)
    ensures Keeps(store, CommitAt(lower, p, turn, store).0)
  {
    hide FindDuplicate, Added, Sound;
    AddedKeepsSound(p, turn, store);
  }

  lemma QuarantineKeepsSound(p: Payload, store: Store)
    requires Sound(store)
    ensures Keeps(store, QuarantineObservation(p, store).0)
  {
  }

  lemma ReviseKeepsSound(id: CommitmentId, p: Payload, turn: nat, store: Store)
    requires Sound(store) && id in store.active
    ensures Keeps(store, Revise(id, p, turn, store).value)
  {
    var next := Revise(id, p, turn, store).value;
    assert next.active.Keys == store.active.Keys && next.lineage.Keys == store.lineage.Keys;
    assert Extends(store, next);
    assert LineageSound(next);
  }

  lemma PromoteKeepsSound(store: Store, topic: string, turn: nat)
    requires Sound(store)
    ensures Keeps(store, Promote(store, topic, turn))
  {
    hide Moved, IdsSound, LineageSound, Extends;
    var ids := Matching(store, topic);
    MovedKeepsIds(store, ids, turn);
    MovedKeepsLineage(store, ids, turn);
    MovedExtends(store, ids, turn);
  }

  lemma MovedKeepsIds(store: Store, ids: set<CommitmentId>, turn: nat)
    requires ids <= store.quarantine.Keys && IdsSound(store)
    ensures IdsSound(Moved(store, ids, turn))
  {
    hide Moved;
    MovedTables(store, ids, turn);
  }

  lemma MovedKeepsLineage(store: Store, ids: set<CommitmentId>, turn: nat)
    requires ids <= store.quarantine.Keys && LineageSound(store)
    ensures LineageSound(Moved(store, ids, turn))
  {
    hide Moved, LineageEnds;
    var next := Moved(store, ids, turn);
    forall id | id in next.active ensures LineageEnds(next, id) {
      MovedEntry(store, ids, turn, id);
    }
  }

  lemma MovedEntry(store: Store, ids: set<CommitmentId>, turn: nat, id: CommitmentId)
    requires ids <= store.quarantine.Keys
    requires id in Moved(store, ids, turn).active && (id in store.active ==> LineageEnds(store, id))
    ensures LineageEnds(Moved(store, ids, turn), id)
  {
    var next := Moved(store, ids, turn);
    assert id in next.lineage;
    if id in ids {
      var was := if id in store.lineage then store.lineage[id] else [];
      assert next.lineage[id] == was + [LineageEvent.Promoted(turn)];
      assert next.active[id] == Held(store.quarantine[id].payload, turn);
    } else {
      assert next.lineage[id] == store.lineage[id] && next.active[id] == store.active[id];
    }
  }

  lemma MovedExtends(store: Store, ids: set<CommitmentId>, turn: nat)
    requires ids <= store.quarantine.Keys && IdsSound(store)
    ensures Extends(store, Moved(store, ids, turn))
  {
    hide Moved;
    MovedTables(store, ids, turn);
  }

  /** The tables after entries have been moved. */
  lemma MovedTables(store: Store, ids: set<CommitmentId>, turn: nat)
    requires ids <= store.quarantine.Keys
    ensures var next := Moved(store, ids, turn);
            && next.nextId == store.nextId
            && next.active.Keys == store.active.Keys + ids
            && next.quarantine.Keys == store.quarantine.Keys - ids
            && next.lineage.Keys == store.lineage.Keys + ids
            && (forall id :: id in next.active
                  ==> next.active[id]
                      == if id in ids then Held(store.quarantine[id].payload, turn) else store.active[id])
            && (forall id :: id in next.quarantine ==> next.quarantine[id] == store.quarantine[id])
            && (forall id :: id in next.lineage
                  ==> next.lineage[id]
                      == if id in ids
                         then (if id in store.lineage then store.lineage[id] else []) + [LineageEvent.Promoted(turn)]
                         else store.lineage[id])
  {
  }

  lemma StepKeepsSound(lower: Lower, store: Store, op: Op)
    requires Sound(store)
    ensures Keeps(store, Step(lower, store, op))
  {
    hide CommitAt, QuarantineObservation, Promote;
    match op {
      case CommitOp(p) => CommitKeepsSound(lower, p, 0, store);
      case CommitObservationOp(p) => CommitKeepsSound(lower, p, p.turnSeq, store);
      case QuarantineOp(p) => QuarantineKeepsSound(p, store);
      case ReviseOp(id, p, turn) =>
        if id in store.active {
          ReviseKeepsSound(id, p, turn, store);
        }
      case ContradictOp(_) =>
      case PromoteOp(topic, turn) => PromoteKeepsSound(store, topic, turn);
    }
  }

  /** Over every run of all operations from any sound store, the empty one included. */
  lemma {:induction false} RunKeepsSound(lower: Lower, store: Store, ops: seq<Op>)
    requires Sound(store)
    ensures Sound(Run(lower, store, ops)) && Extends(store, Run(lower, store, ops))
    decreases |ops|
  {
    hide Sound, Step;
    if ops != [] {
      StepKeepsSound(lower, store, ops[0]);
      RunKeepsSound(lower, Step(lower, store, ops[0]), ops[1..]);
      ExtendsTransitive(store, Step(lower, store, ops[0]), Run(lower, store, ops));
    }
  }

  lemma ExtendsTransitive(a: Store, b: Store, c: Store)
    requires Extends(a, b) && Extends(b, c)
    ensures Extends(a, c)
  {
  }

  lemma EveryRunIsSound(lower: Lower, ops: seq<Op>)
    ensures Sound(Run(lower, EMPTY, ops))
  {
    RunKeepsSound(lower, EMPTY, ops);
  }

  /** In a sound store a fresh id never collides, so `Duplicate` always names an equal claim. */
  lemma DuplicateMeansEqualClaim(lower: Lower, p: Payload, turn: nat, store: Store)
    requires Sound(store)
    ensures match CommitAt(lower, p, turn, store).1
            case Duplicate(id) => FindDuplicate(lower, p, store) == Some(id)
                                  && id in store.Payloads() && Key(lower, store.Payloads()[id]) == Key(lower, p)
            case New(id) => id == store.nextId && FindDuplicate(lower, p, store).None?
            case CapacityReached => store.Size() >= MAX_COMMITMENTS && FindDuplicate(lower, p, store).None?
  {
    hide Key;
  }

  // ---------- Bounded, duplicate-free stores ----------

  ghost predicate Bounded(store: Store) {
    store.Size() <= MAX_COMMITMENTS
  }

  ghost predicate KeysDiffer(lower: Lower, a: Held, b: Held) {
    Key(lower, a.payload) != Key(lower, b.payload)
  }

  /** No two entries, held or quarantined, make the same claim. */
  ghost predicate DistinctKeys(lower: Lower, store: Store) {
    && (forall i, j :: i in store.active && j in store.active && i != j
                       ==> KeysDiffer(lower, store.active[i], store.active[j]))
    && (forall i, j :: i in store.quarantine && j in store.quarantine && i != j
                       ==> KeysDiffer(lower, store.quarantine[i], store.quarantine[j]))
    && (forall i, j :: i in store.active && j in store.quarantine
                       ==> KeysDiffer(lower, store.active[i], store.quarantine[j]))
  }

  lemma NoDuplicateMeans(lower: Lower, p: Payload, store: Store)
    ensures FindDuplicate(lower, p, store).None?
            <==> && (forall i :: i in store.active ==> Key(lower, store.active[i].payload) != Key(lower, p))
                 && (forall i :: i in store.quarantine ==> Key(lower, store.quarantine[i].payload) != Key(lower, p))
  {
    hide Key;
    if FindDuplicate(lower, p, store).None? {
      assert forall i :: !HasKey(lower, store.active, i, p);
      assert forall i :: !HasKey(lower, store.quarantine, i, p);
      forall i | i in store.active
        ensures Key(lower, store.active[i].payload) != Key(lower, p)
      {
        assert !HasKey(lower, store.active, i, p);
      }
      forall i | i in store.quarantine
        ensures Key(lower, store.quarantine[i].payload) != Key(lower, p)
      {
        assert !HasKey(lower, store.quarantine, i, p);
      }
    }
  }

  lemma CommitKeepsDistinct(lower: Lower, p: Payload, turn: nat, store: Store)
    requires Bounded(store) && DistinctKeys(lower, store)
    ensures var next := CommitAt(lower, p, turn, store).0;
            Bounded(next) && DistinctKeys(lower, next)
  {
    hide Key, FindDuplicate;
    NoDuplicateMeans(lower, p, store);
  }

  lemma PromoteKeepsDistinct(lower: Lower, store: Store, topic: string, turn: nat)
    requires Bounded(store) && DistinctKeys(lower, store)
    ensures Bounded(Promote(store, topic, turn)) && DistinctKeys(lower, Promote(store, topic, turn))
  {
    MovedSize(store, Matching(store, topic), turn);
    MovedDistinct(lower, store, Matching(store, topic), turn);
  }

  lemma MovedSize(store: Store, ids: set<CommitmentId>, turn: nat)
    requires ids <= store.quarantine.Keys
    ensures Moved(store, ids, turn).Size() <= store.Size()
  {
    hide Moved;
    var next := Moved(store, ids, turn);
    MovedTables(store, ids, turn);
    KeysSize(store.active, next.active);
    KeysSize(store.quarantine, next.quarantine);
    MovedKeysSize(store.active.Keys, store.quarantine.Keys, ids);
  }

  lemma KeysSize(a: map<CommitmentId, Held>, b: map<CommitmentId, Held>)
    ensures |a| == |a.Keys| && |b| == |b.Keys|
  {
  }

  lemma MovedKeysSize(active: set<nat>, quarantine: set<nat>, ids: set<nat>)
    requires ids <= quarantine
    ensures |active + ids| + |quarantine - ids| <= |active| + |quarantine|
  {
    UnionSize(active, ids);
    assert quarantine == (quarantine - ids) + ids;
    DisjointUnionSize(quarantine - ids, ids);
  }

  lemma DisjointUnionSize(a: set<nat>, b: set<nat>)
    requires a !! b
    ensures |a + b| == |a| + |b|
  {
  }

  /** Where the payload of an entry of the new active table came from. */
  ghost predicate CameFrom(store: Store, ids: set<CommitmentId>, id: CommitmentId, h: Held) {
    if id in ids then id in store.quarantine && h.payload == store.quarantine[id].payload
    else id in store.active && h.payload == store.active[id].payload
  }

  lemma MovedDistinct(lower: Lower, store: Store, ids: set<CommitmentId>, turn: nat)
    requires ids <= store.quarantine.Keys && DistinctKeys(lower, store)
    ensures DistinctKeys(lower, Moved(store, ids, turn))
  {
    hide Moved, Key;
    var next := Moved(store, ids, turn);
    MovedTables(store, ids, turn);
    forall i, j | i in next.active && j in next.active && i != j
      ensures KeysDiffer(lower, next.active[i], next.active[j])
    {
      assert CameFrom(store, ids, i, next.active[i]) && CameFrom(store, ids, j, next.active[j]);
      SourcesDiffer(lower, store, ids, i, next.active[i], j, next.active[j]);
    }
    forall i, j | i in next.active && j in next.quarantine
      ensures KeysDiffer(lower, next.active[i], next.quarantine[j])
    {
      assert CameFrom(store, ids, i, next.active[i]);
      if i in ids {
        assert KeysDiffer(lower, store.quarantine[i], store.quarantine[j]);
      } else {
        assert KeysDiffer(lower, store.active[i], store.quarantine[j]);
      }
    }
    forall i, j | i in next.quarantine && j in next.quarantine && i != j
      ensures KeysDiffer(lower, next.quarantine[i], next.quarantine[j])
    {
      assert KeysDiffer(lower, store.quarantine[i], store.quarantine[j]);
    }
  }

  lemma SourcesDiffer(
      lower: Lower, store: Store, ids: set<CommitmentId>, i: CommitmentId, a: Held, j: CommitmentId, b: Held)
    requires DistinctKeys(lower, store) && i != j
    requires CameFrom(store, ids, i, a) && CameFrom(store, ids, j, b)
    ensures KeysDiffer(lower, a, b)
  {
    hide Key;
    if i in ids && j in ids {
      assert KeysDiffer(lower, store.quarantine[i], store.quarantine[j]);
    } else if i in ids {
      assert KeysDiffer(lower, store.active[j], store.quarantine[i]);
    } else if j in ids {
      assert KeysDiffer(lower, store.active[i], store.quarantine[j]);
    } else {
      assert KeysDiffer(lower, store.active[i], store.active[j]);
    }
  }

  lemma UnionSize(a: set<nat>, b: set<nat>)
    ensures |a + b| <= |a| + |b|
  {
    assert |a + b| == |a| + |b| - |a * b|;
  }

  /** Runs of the operations that look for duplicates and respect the bound. */
  predicate Guarded(op: Op) {
    op.CommitOp? || op.CommitObservationOp? || op.PromoteOp?
  }

  lemma {:induction false} GuardedRunKeepsDistinct(lower: Lower, store: Store, ops: seq<Op>)
    requires Bounded(store) && DistinctKeys(lower, store)
    requires forall i :: 0 <= i < |ops| ==> Guarded(ops[i])
    ensures Bounded(Run(lower, store, ops)) && DistinctKeys(lower, Run(lower, store, ops))
    decreases |ops|
  {
    hide DistinctKeys, CommitAt, Promote, Bounded;
    if ops != [] {
      assert Guarded(ops[0]);
      match ops[0] {
        case CommitOp(p) => CommitKeepsDistinct(lower, p, 0, store);
        case CommitObservationOp(p) => CommitKeepsDistinct(lower, p, p.turnSeq, store);
        case PromoteOp(topic, turn) => PromoteKeepsDistinct(lower, store, topic, turn);
      }
      GuardedRunKeepsDistinct(lower, Step(lower, store, ops[0]), ops[1..]);
    }
  }

  /** Promotion loses and invents no claim: every id keeps its payload. */
  lemma PromotionConserves(store: Store, topic: string, turn: nat)
    requires store.active.Keys !! store.quarantine.Keys
    ensures Promote(store, topic, turn).Payloads() == store.Payloads()
    ensures Matching(Promote(store, topic, turn), topic) == {}
  {
  }

  /** Quarantining makes no checks: claims stay distinct exactly when the caller would have found no
      duplicate, and the bound holds exactly when there was room. */
  lemma QuarantineKeepsDistinctIff(lower: Lower, p: Payload, store: Store)
    requires Sound(store) && DistinctKeys(lower, store)
    ensures DistinctKeys(lower, QuarantineObservation(p, store).0) <==> FindDuplicate(lower, p, store).None?
    ensures Bounded(QuarantineObservation(p, store).0) <==> store.Size() < MAX_COMMITMENTS
  {
    hide Key, FindDuplicate, DistinctKeys;
    NoDuplicateMeans(lower, p, store);
    var next, id := QuarantineObservation(p, store).0, store.nextId;
    assert id !in store.active && id !in store.quarantine;
    QuarantiningDistinctIff(lower, store, next, id, Held(p, p.turnSeq));
    assert next.Size() == store.Size() + 1;
  }

  lemma QuarantiningDistinctIff(lower: Lower, store: Store, next: Store, id: CommitmentId, h: Held)
    requires DistinctKeys(lower, store) && id !in store.active && id !in store.quarantine
    requires next.active == store.active && next.quarantine == store.quarantine[id := h]
    ensures DistinctKeys(lower, next)
            <==> && (forall i :: i in store.active ==> Key(lower, store.active[i].payload) != Key(lower, h.payload))
                 && (forall i :: i in store.quarantine
                                 ==> Key(lower, store.quarantine[i].payload) != Key(lower, h.payload))
  {
    hide Key;
    if DistinctKeys(lower, next) {
      forall i | i in store.active
        ensures Key(lower, store.active[i].payload) != Key(lower, h.payload)
      {
        assert KeysDiffer(lower, next.active[i], next.quarantine[id]);
      }
      forall i | i in store.quarantine
        ensures Key(lower, store.quarantine[i].payload) != Key(lower, h.payload)
      {
        assert KeysDiffer(lower, next.quarantine[i], next.quarantine[id]);
      }
    }
  }

  /** Revising makes no check either: claims stay distinct exactly when no other entry already makes the
      revised claim. */
  lemma ReviseKeepsDistinctIff(lower: Lower, id: CommitmentId, p: Payload, turn: nat, store: Store)
    requires DistinctKeys(lower, store) && id in store.active
    ensures DistinctKeys(lower, Revise(id, p, turn, store).value)
            <==> && (forall i :: i in store.active && i != id ==> Key(lower, store.active[i].payload) != Key(lower, p))
                 && (forall i :: i in store.quarantine ==> Key(lower, store.quarantine[i].payload) != Key(lower, p))
  {
    hide Key, Append;
    var next := Revise(id, p, turn, store).value;
    assert next.active == store.active[id := Held(p, turn)] && next.quarantine == store.quarantine;
    if DistinctKeys(lower, next) {
      forall i | i in store.active && i != id
        ensures Key(lower, store.active[i].payload) != Key(lower, p)
      {
        assert KeysDiffer(lower, next.active[i], next.active[id]);
      }
      forall i | i in store.quarantine
        ensures Key(lower, store.quarantine[i].payload) != Key(lower, p)
      {
        assert KeysDiffer(lower, next.active[id], next.quarantine[i]);
      }
    }
  }

  /** A claim that was just committed is recognised when it comes again, in any spelling with the same
      key, and the store stays as it is. */
  lemma CommittedIsRecognised(lower: Lower, p: Payload, again: Payload, turn: nat, turn': nat, store: Store)
    requires CommitAt(lower, p, turn, store).1.New? && Key(lower, again) == Key(lower, p)
    ensures var (next, r) := CommitAt(lower, p, turn, store);
            CommitAt(lower, again, turn', next) == (next, Duplicate(r.id))
  {
    hide Key;
    var (next, r) := CommitAt(lower, p, turn, store);
    NoDuplicateMeans(lower, p, store);
    assert HasKey(lower, next.active, r.id, again);
    assert forall other :: HasKey(lower, next.active, other, again) ==> other == r.id;
  }

  // ---------- Runs of the unchecked operations ----------

  lemma RunTwo(lower: Lower, store: Store, a: Op, b: Op)
    ensures Run(lower, store, [a, b]) == Step(lower, Step(lower, store, a), b)
  {
    hide Step;
    var after := Step(lower, store, a);
    assert [a, b][1..] == [b] && [b][1..] == [];
    assert Run(lower, after, [b]) == Run(lower, Step(lower, after, b), []);
  }

  /** Quarantining one claim twice, from the empty store, holds it twice. */
  lemma QuarantineMayRepeat(lower: Lower, p: Payload)
    ensures !DistinctKeys(lower, Run(lower, EMPTY, [QuarantineOp(p), QuarantineOp(p)]))
  {
    hide Key;
    RunTwo(lower, EMPTY, QuarantineOp(p), QuarantineOp(p));
    var store := QuarantineObservation(p, QuarantineObservation(p, EMPTY).0).0;
    assert store.quarantine == map[0 := Held(p, p.turnSeq), 1 := Held(p, p.turnSeq)];
    assert !KeysDiffer(lower, store.quarantine[0], store.quarantine[1]);
  }

  /** Committing two claims and revising the second to the first holds the first twice. */
  lemma ReviseMayRepeat(lower: Lower, p: Payload, q: Payload, turn: nat)
    requires Key(lower, p) != Key(lower, q)
    ensures DistinctKeys(lower, Run(lower, EMPTY, [CommitOp(p), CommitOp(q)]))
    ensures !DistinctKeys(lower, Step(lower, Run(lower, EMPTY, [CommitOp(p), CommitOp(q)]), ReviseOp(1, p, turn)))
  {
    hide Key;
    var one := Commit(lower, p, EMPTY).0;
    var two := Commit(lower, q, one).0;
    RunTwo(lower, EMPTY, CommitOp(p), CommitOp(q));
    CommitKeepsDistinct(lower, p, 0, EMPTY);
    assert one.active == map[0 := Held(p, 0)] && one.quarantine == map[] && one.nextId == 1;
    CommitKeepsDistinct(lower, q, 0, one);
    NoDuplicateMeans(lower, q, one);
    assert two.active == map[0 := Held(p, 0), 1 := Held(q, 0)];
    var revised := Revise(1, p, turn, two).value;
    assert revised.active[0] == Held(p, 0) && revised.active[1] == Held(p, turn);
    assert !KeysDiffer(lower, revised.active[0], revised.active[1]);
  }

  /** Nothing bounds a run of quarantines: each one adds an entry. */
  lemma {:induction false} QuarantineRunGrows(lower: Lower, store: Store, ops: seq<Op>)
    requires Sound(store) && forall i :: 0 <= i < |ops| ==> ops[i].QuarantineOp?
    ensures Run(lower, store, ops).Size() == store.Size() + |ops|
    decreases |ops|
  {
    hide Sound;
    if ops != [] {
      var p := ops[0].payload;
      QuarantineKeepsSound(p, store);
      QuarantineAddsOne(p, store);
      QuarantineRunGrows(lower, QuarantineObservation(p, store).0, ops[1..]);
    }
  }

  lemma QuarantineAddsOne(p: Payload, store: Store)
    requires Sound(store)
    ensures QuarantineObservation(p, store).0.Size() == store.Size() + 1
  {
    assert store.nextId !in store.quarantine;
  }

  /** The bound is passed by any 1,025 quarantines from the empty store, and by no fewer. */
  lemma QuarantineMayOverfill(lower: Lower, ops: seq<Op>)
    requires forall i :: 0 <= i < |ops| ==> ops[i].QuarantineOp?
    ensures Bounded(Run(lower, EMPTY, ops)) <==> |ops| <= MAX_COMMITMENTS
  {
    QuarantineRunGrows(lower, EMPTY, ops);
  }

  // ---------- When two claims are the same ----------

  /** Words with whitespace before, between and after them. */
  function Spread(pads: seq<string>, ws: seq<string>): string
    requires |pads| == |ws| + 1
  {
    if ws == [] then pads[0] else pads[0] + ws[0] + Spread(pads[1..], ws[1..])
  }

  ghost predicate IsWord(w: string) {
    w != "" && forall c :: c in w ==> !Text.IsWhitespace(c)
  }

  /** Whitespace throughout, and some between any two words. */
  ghost predicate Separates(pads: seq<string>, ws: seq<string>) {
    && |pads| == |ws| + 1
    && (forall i :: 0 <= i < |pads| ==> Text.Blank(pads[i]))
    && (forall i :: 0 < i < |ws| ==> pads[i] != "")
    && forall i :: 0 <= i < |ws| ==> IsWord(ws[i])
  }

  lemma {:induction false} WordsSkip(pad: string, s: string)
    requires Text.Blank(pad)
    ensures Words(pad + s, "") == Words(s, "")
    decreases |pad|
  {
    if pad == "" {
      assert pad + s == s;
    } else {
      assert pad[0] in pad && (pad + s)[1..] == pad[1..] + s;
      WordsSkip(pad[1..], s);
    }
  }

  lemma {:induction false} WordsCollect(w: string, s: string, word: string)
    requires forall c :: c in w ==> !Text.IsWhitespace(c)
    ensures Words(w + s, word) == Words(s, word + w)
    decreases |w|
  {
    if w == "" {
      assert w + s == s && word + w == word;
    } else {
      assert w[0] in w && (w + s)[1..] == w[1..] + s && word + w == word + [w[0]] + w[1..];
      WordsCollect(w[1..], s, word + [w[0]]);
    }
  }

  lemma WordEnds(s: string, word: string)
    requires word != "" && (s == "" || Text.IsWhitespace(s[0]))
    ensures Words(s, word) == [word] + Words(s, "")
  {
    if s != "" {
      assert Words(s, "") == Words(s[1..], "");
    }
  }

  /** The words of a text are the words it was spread from. */
  lemma {:induction false} WordsOfSpread(pads: seq<string>, ws: seq<string>)
    requires Separates(pads, ws)
    ensures Words(Spread(pads, ws), "") == ws
    decreases |ws|
  {
    hide Words;
    assert Text.Blank(pads[0]);
    if ws == [] {
      WordsSkip(pads[0], "");
      assert pads[0] + "" == pads[0];
      NoWords();
    } else {
      assert IsWord(ws[0]);
      var rest := Spread(pads[1..], ws[1..]);
      assert Spread(pads, ws) == pads[0] + (ws[0] + rest);
      WordsSkip(pads[0], ws[0] + rest);
      WordsCollect(ws[0], rest, "");
      assert "" + ws[0] == ws[0];
      SpreadOpens(pads[1..], ws[1..]);
      WordEnds(rest, ws[0]);
      WordsOfSpread(pads[1..], ws[1..]);
    }
  }

  lemma NoWords()
    ensures Words("", "") == []
  {
  }

  lemma SpreadOpens(pads: seq<string>, ws: seq<string>)
    requires |pads| == |ws| + 1 && Text.Blank(pads[0]) && (ws != [] ==> pads[0] != "")
    ensures var s := Spread(pads, ws); s == "" || Text.IsWhitespace(s[0])
  {
    if pads[0] != "" {
      assert pads[0][0] in pads[0];
    }
  }

  /** Two claims have one key exactly when their topics and their words, joined by single spaces, are lowered
      alike, however the words are spread. */
  lemma SameKeyIff(
      lower: Lower, p: Payload, q: Payload,
      pads: seq<string>, ws: seq<string>, pads': seq<string>, ws': seq<string>)
    requires Separates(pads, ws) && p.statement == Spread(pads, ws)
    requires Separates(pads', ws') && q.statement == Spread(pads', ws')
    ensures Key(lower, p) == Key(lower, q)
            <==> lower(p.topic) == lower(q.topic) && lower(Types.Join(ws, " ")) == lower(Types.Join(ws', " "))
    ensures (forall a, b :: lower(a) == lower(b) ==> a == b)
            ==> (Key(lower, p) == Key(lower, q) <==> p.topic == q.topic && ws == ws')
  {
    hide Words;
    WordsOfSpread(pads, ws);
    WordsOfSpread(pads', ws');
    JoinedWords(ws);
    JoinedWords(ws');
  }

  /** Joining words with single spaces loses none of them. */
  lemma {:induction false} JoinedWords(ws: seq<string>)
    requires forall i :: 0 <= i < |ws| ==> IsWord(ws[i])
    ensures Words(Types.Join(ws, " "), "") == ws
    decreases |ws|
  {
    hide Words;
    if ws == [] {
      NoWords();
    } else {
      assert "" + ws[0] == ws[0] && IsWord(ws[0]);
      var rest := if |ws| == 1 then "" else " " + Types.Join(ws[1..], " ");
      assert Types.Join(ws, " ") == ws[0] + rest;
      WordsCollect(ws[0], rest, "");
      WordEnds(rest, ws[0]);
      if |ws| == 1 {
        NoWords();
      } else {
        WordsSkip(" ", Types.Join(ws[1..], " "));
        JoinedWords(ws[1..]);
      }
    }
  }

  // ---------- What each operation does, field by field ----------

  /** The first entry, active ones before quarantined ones and lower ids first, with the claim of `p`. */
  ghost predicate FirstEqual(lower: Lower, p: Payload, store: Store, id: CommitmentId) {
    || (id in store.active && Key(lower, store.active[id].payload) == Key(lower, p)
        && forall i :: i in store.active && Key(lower, store.active[i].payload) == Key(lower, p) ==> id <= i)
    || (id in store.quarantine && Key(lower, store.quarantine[id].payload) == Key(lower, p)
        && (forall i :: i in store.quarantine && Key(lower, store.quarantine[i].payload) == Key(lower, p) ==> id <= i)
        && forall i :: i in store.active ==> Key(lower, store.active[i].payload) != Key(lower, p))
  }

  lemma FindsFirstEqual(lower: Lower, p: Payload, store: Store)
    ensures FindDuplicate(lower, p, store).Some? <==> exists id :: FirstEqual(lower, p, store, id)
    ensures FindDuplicate(lower, p, store).Some? ==> FirstEqual(lower, p, store, FindDuplicate(lower, p, store).value)
  {
    hide Key;
    var found := FindDuplicate(lower, p, store);
    NoDuplicateMeans(lower, p, store);
    forall i | i in store.active
      ensures HasKey(lower, store.active, i, p) <==> Key(lower, store.active[i].payload) == Key(lower, p)
    {
    }
    forall i | i in store.quarantine
      ensures HasKey(lower, store.quarantine, i, p) <==> Key(lower, store.quarantine[i].payload) == Key(lower, p)
    {
    }
    if found.Some? {
      assert FirstEqual(lower, p, store, found.value);
    }
  }

  /** Both ways of committing: an equal claim is looked for first, then room, then a free id; otherwise the
      claim becomes active under the next id, with turn zero or its own turn, and a lineage of one event. */
  lemma CommitEffect(lower: Lower, p: Payload, store: Store, observed: bool)
    ensures var (next, result) := if observed then CommitObservation(lower, p, store) else Commit(lower, p, store);
            var turn := if observed then p.turnSeq else 0;
            if exists id :: FirstEqual(lower, p, store, id)
            then next == store && result.Duplicate? && FirstEqual(lower, p, store, result.id)
            else if |store.active| + |store.quarantine| >= 1024 then next == store && result == CapacityReached
            else if store.nextId in store.active || store.nextId in store.quarantine
            then next == store && result == Duplicate(store.nextId)
            else && result == New(store.nextId) && next.nextId == store.nextId + 1
                 && next.active == store.active[store.nextId := Held(p, turn)] && next.quarantine == store.quarantine
                 && next.lineage == store.lineage[store.nextId := [Committed(turn)]]
                 && next.contradictions == store.contradictions
  {
    hide FirstEqual, FindDuplicate;
    FindsFirstEqual(lower, p, store);
  }

  /** Quarantining, revising and recording a contradiction. */
  lemma OtherEffects(store: Store, p: Payload, id: CommitmentId, turn: nat, c: Contradiction)
    ensures var (next, id') := QuarantineObservation(p, store);
            && id' == store.nextId && next.nextId == store.nextId + 1
            && next.quarantine == store.quarantine[store.nextId := Held(p, p.turnSeq)] && next.active == store.active
            && next.lineage == store.lineage && next.contradictions == store.contradictions
    ensures Revise(id, p, turn, store).None? <==> id !in store.active
    ensures id in store.active
            ==> var next := Revise(id, p, turn, store).value;
                && next.active == store.active[id := Held(p, turn)] && next.quarantine == store.quarantine
                && next.lineage
                   == store.lineage[id := (if id in store.lineage then store.lineage[id] else []) + [Revised(turn)]]
                && next.nextId == store.nextId && next.contradictions == store.contradictions
    ensures var next := Contradict(c, store);
            && next.contradictions == store.contradictions + [c] && next.active == store.active
            && next.quarantine == store.quarantine && next.lineage == store.lineage && next.nextId == store.nextId
  {
  }

  /** Promotion moves the quarantined claims on exactly that topic, and nothing else. */
  lemma PromoteEffect(store: Store, topic: string, turn: nat, id: CommitmentId)
    ensures var next := Promote(store, topic, turn);
            && next.nextId == store.nextId && next.contradictions == store.contradictions
            && if id in store.quarantine && store.quarantine[id].payload.topic == topic
               then && id !in next.quarantine && id in next.active && id in next.lineage
                    && next.active[id] == Held(store.quarantine[id].payload, turn)
                    && next.lineage[id]
                       == (if id in store.lineage then store.lineage[id] else []) + [LineageEvent.Promoted(turn)]
               else && (id in next.quarantine <==> id in store.quarantine)
                    && (id in store.quarantine ==> next.quarantine[id] == store.quarantine[id])
                    && (id in next.active <==> id in store.active)
                    && (id in store.active ==> next.active[id] == store.active[id])
                    && (id in next.lineage <==> id in store.lineage)
                    && (id in store.lineage ==> next.lineage[id] == store.lineage[id])
  {
    hide Moved;
    MovedTables(store, Matching(store, topic), turn);
    ContradictionsStay(store, Matching(store, topic), turn);
  }

  lemma ContradictionsStay(store: Store, ids: set<CommitmentId>, turn: nat)
    requires ids <= store.quarantine.Keys
    ensures Moved(store, ids, turn).contradictions == store.contradictions
  {
  }
}
