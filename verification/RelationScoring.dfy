/** Scoring predicted argument relations against gold relations: multiset counts, the greedy matcher
    behind the calibration table, and the ratios derived from the counts. */
module RelationScoring {
  import opened Options
  import opened Arithmetic
  import opened StableSort

  datatype NodeKind = Claim | Premise | Conclusion | Qualifier | Counterclaim

  datatype RelationKind =
    | Attacks | Contradicts | Entails | Qualifies | Rebuts
    | RequestsDefinition | RequestsEvidence | Supports | Undercuts

  const RELATION_KINDS: seq<RelationKind> := [
    Attacks, Contradicts, Entails, Qualifies, Rebuts, RequestsDefinition, RequestsEvidence, Supports, Undercuts]

  datatype Node = Node(id: string, kind: NodeKind, source: string, polarity: string, proposition: string)

  datatype Relation = Relation(from: string, to: string, kind: RelationKind, confidence: int)

  datatype NodeSignature = NodeSignature(kind: NodeKind, source: string, polarity: string, proposition: string)

  datatype RelationSignature = RelationSignature(from: NodeSignature, to: NodeSignature, kind: RelationKind)

  function SignatureOf(n: Node): NodeSignature {
    NodeSignature(n.kind, n.source, n.polarity, n.proposition)
  }

  // ---------- Identifier-independent signatures ----------

  function NodeTable(nodes: seq<Node>): map<string, Node> {
    if nodes == [] then map[]
    else NodeTable(nodes[..|nodes| - 1])[nodes[|nodes| - 1].id := nodes[|nodes| - 1]]
  }

  /** Both ends of every relation are nodes of the case, as validation has established. */
  ghost predicate Linked(nodes: seq<Node>, relations: seq<Relation>) {
    forall i :: 0 <= i < |relations| ==> relations[i].from in NodeTable(nodes) && relations[i].to in NodeTable(nodes)
  }

  function RelationSignatureOf(table: map<string, Node>, r: Relation): RelationSignature
    requires r.from in table && r.to in table
  {
    RelationSignature(SignatureOf(table[r.from]), SignatureOf(table[r.to]), r.kind)
  }

  function RelationSignatures(nodes: seq<Node>, relations: seq<Relation>): seq<RelationSignature>
    requires Linked(nodes, relations)
  {
    var table := NodeTable(nodes);
    seq(|relations|, i requires 0 <= i < |relations| => RelationSignatureOf(table, relations[i]))
  }

  /** Looking a renamed id up in the renamed nodes finds a node with the same signature. */
  lemma {:induction false} SameNodeSignature(nodes: seq<Node>, renamed: seq<Node>, id: string, id': string)
    requires |nodes| == |renamed|
    requires forall i :: 0 <= i < |nodes| ==> SignatureOf(nodes[i]) == SignatureOf(renamed[i])
    requires forall i :: 0 <= i < |nodes| ==> (nodes[i].id == id <==> renamed[i].id == id')
    requires id in NodeTable(nodes)
    ensures id' in NodeTable(renamed) && SignatureOf(NodeTable(renamed)[id']) == SignatureOf(NodeTable(nodes)[id])
    decreases |nodes|
  {
    var n := |nodes| - 1;
    if nodes[n].id != id {
      SameNodeSignature(nodes[..n], renamed[..n], id, id');
    }
  }

  function RenamedNodes(nodes: seq<Node>, rename: string -> string): seq<Node> {
    seq(|nodes|, i requires 0 <= i < |nodes| => nodes[i].(id := rename(nodes[i].id)))
  }

  function RenamedRelations(relations: seq<Relation>, rename: string -> string): seq<Relation> {
    seq(|relations|, i requires 0 <= i < |relations|
        => relations[i].(from := rename(relations[i].from), to := rename(relations[i].to)))
  }

  /** Renaming the nodes of a case without merging any, in nodes and relations alike, leaves every
      relation signature as it was. */
  lemma SignaturesIgnoreIds(nodes: seq<Node>, relations: seq<Relation>, rename: string -> string)
    requires Linked(nodes, relations)
    requires forall a, b :: rename(a) == rename(b) ==> a == b
    ensures Linked(RenamedNodes(nodes, rename), RenamedRelations(relations, rename))
    ensures RelationSignatures(RenamedNodes(nodes, rename), RenamedRelations(relations, rename))
            == RelationSignatures(nodes, relations)
  {
    hide NodeTable;
    var nodes', relations' := RenamedNodes(nodes, rename), RenamedRelations(relations, rename);
    forall i | 0 <= i < |relations|
      ensures relations'[i].from in NodeTable(nodes') && relations'[i].to in NodeTable(nodes')
      ensures SignatureOf(NodeTable(nodes')[relations'[i].from]) == SignatureOf(NodeTable(nodes)[relations[i].from])
      ensures SignatureOf(NodeTable(nodes')[relations'[i].to]) == SignatureOf(NodeTable(nodes)[relations[i].to])
    {
      SameNodeSignature(nodes, nodes', relations[i].from, relations'[i].from);
      SameNodeSignature(nodes, nodes', relations[i].to, relations'[i].to);
    }
  }

  lemma SignatureCount(nodes: seq<Node>, relations: seq<Relation>)
    requires Linked(nodes, relations)
    ensures |RelationSignatures(nodes, relations)| == |relations|
  {
  }

  lemma SignatureAt(nodes: seq<Node>, relations: seq<Relation>, i: nat)
    requires Linked(nodes, relations) && i < |relations|
    ensures relations[i].from in NodeTable(nodes) && relations[i].to in NodeTable(nodes)
    ensures |RelationSignatures(nodes, relations)| == |relations|
    ensures RelationSignatures(nodes, relations)[i] == RelationSignatureOf(NodeTable(nodes), relations[i])
    ensures RelationSignatureOf(NodeTable(nodes), relations[i]).kind == relations[i].kind
  {
  }

  // ---------- Counting by multiset algebra ----------

  function HasKind(kind: RelationKind): RelationSignature -> bool {
    (s: RelationSignature) => s.kind == kind
  }

  function OfKind(signatures: seq<RelationSignature>, kind: RelationKind): multiset<RelationSignature> {
    multiset(Filter(signatures, HasKind(kind)))
  }

  datatype Counts = Counts(truePositive: nat, falsePositive: nat, falseNegative: nat)

  function Score(gold: seq<RelationSignature>, predicted: seq<RelationSignature>, kind: RelationKind): Counts {
    var expected, actual := OfKind(gold, kind), OfKind(predicted, kind);
    Counts(|expected * actual|, |actual - expected|, |expected - actual|)
  }

  /** True positives and false negatives make up the gold relations, true and false positives the
      predictions. */
  lemma ScoreConserves(gold: seq<RelationSignature>, predicted: seq<RelationSignature>, kind: RelationKind)
    ensures var c := Score(gold, predicted, kind);
            && c.truePositive + c.falseNegative == |OfKind(gold, kind)|
            && c.truePositive + c.falsePositive == |OfKind(predicted, kind)|
  {
    var expected, actual := OfKind(gold, kind), OfKind(predicted, kind);
    assert expected == expected * actual + (expected - actual);
    assert actual == expected * actual + (actual - expected);
  }

  lemma ScoreForgetsOrder(
      gold: seq<RelationSignature>, predicted: seq<RelationSignature>, rearranged: seq<RelationSignature>,
      kind: RelationKind)
    requires multiset(predicted) == multiset(rearranged)
    ensures Score(gold, predicted, kind) == Score(gold, rearranged, kind)
  {
    forall s
      ensures OfKind(predicted, kind)[s] == OfKind(rearranged, kind)[s]
    {
      FilterCount(predicted, HasKind(kind), s);
      FilterCount(rearranged, HasKind(kind), s);
    }
    assert OfKind(predicted, kind) == OfKind(rearranged, kind);
  }

  // ---------- The greedy matcher ----------

  datatype Bucket = B0000_2499 | B2500_4999 | B5000_7499 | B7500_10000

  function ConfidenceBucket(value: int): Bucket {
    if value < 2_500 then B0000_2499
    else if value < 5_000 then B2500_4999
    else if value < 7_500 then B5000_7499
    else B7500_10000
  }

  datatype Outcome = Outcome(correct: nat, incorrect: nat)

  datatype Slot = Slot(kind: RelationKind, bucket: Bucket)

  type Calibration = map<Slot, Outcome>

  function At(calibration: Calibration, kind: RelationKind, bucket: Bucket): Outcome {
    if Slot(kind, bucket) in calibration then calibration[Slot(kind, bucket)] else Outcome(0, 0)
  }

  function Correct(calibration: Calibration, kind: RelationKind): nat {
    At(calibration, kind, B0000_2499).correct + At(calibration, kind, B2500_4999).correct
    + At(calibration, kind, B5000_7499).correct + At(calibration, kind, B7500_10000).correct
  }

  function Incorrect(calibration: Calibration, kind: RelationKind): nat {
    At(calibration, kind, B0000_2499).incorrect + At(calibration, kind, B2500_4999).incorrect
    + At(calibration, kind, B5000_7499).incorrect + At(calibration, kind, B7500_10000).incorrect
  }

  function Record(calibration: Calibration, kind: RelationKind, bucket: Bucket, hit: bool): Calibration {
    var o := At(calibration, kind, bucket);
    calibration[Slot(kind, bucket) := if hit then o.(correct := o.correct + 1) else o.(incorrect := o.incorrect + 1)]
  }

  lemma RecordCounts(calibration: Calibration, kind: RelationKind, bucket: Bucket, hit: bool, k: RelationKind)
    ensures Correct(Record(calibration, kind, bucket, hit), k)
            == Correct(calibration, k) + if k == kind && hit then 1 else 0
    ensures Incorrect(Record(calibration, kind, bucket, hit), k)
            == Incorrect(calibration, k) + if k == kind && !hit then 1 else 0
  {
  }

  lemma OverlapGrows(expected: multiset<RelationSignature>, actual: multiset<RelationSignature>, s: RelationSignature)
    ensures var more := actual + multiset{s};
            if expected[s] > actual[s]
            then |expected * more| == |expected * actual| + 1 && |more - expected| == |actual - expected|
            else |expected * more| == |expected * actual| && |more - expected| == |actual - expected| + 1
  {
    var more := actual + multiset{s};
    if expected[s] > actual[s] {
      assert expected * more == expected * actual + multiset{s};
      assert more - expected == actual - expected;
    } else {
      assert expected * more == expected * actual;
      assert more - expected == (actual - expected) + multiset{s};
    }
  }

  lemma OfKindSnoc(before: seq<RelationSignature>, s: RelationSignature, kind: RelationKind)
    ensures OfKind(before + [s], kind) == OfKind(before, kind) + if s.kind == kind then multiset{s} else multiset{}
    ensures s.kind == kind ==> OfKind(before, kind)[s] == multiset(before)[s]
  {
    FilterSnoc(before, s, HasKind(kind));
    FilterCount(before, HasKind(kind), s);
  }

  /** Taking one more prediction: it is a hit exactly when the gold relations hold it more often than
      the predictions before it, and then the overlap grows by one; otherwise the surplus does. */
  lemma OneMorePrediction(
      gold: seq<RelationSignature>, before: seq<RelationSignature>, s: RelationSignature, kind: RelationKind)
    ensures var hit := (multiset(gold) - multiset(before))[s] > 0;
            var now, was := Score(gold, before + [s], kind), Score(gold, before, kind);
            && now.truePositive == was.truePositive + (if s.kind == kind && hit then 1 else 0)
            && now.falsePositive == was.falsePositive + (if s.kind == kind && !hit then 1 else 0)
  {
    hide OfKind;
    OfKindSnoc(before, s, kind);
    OfKindSnoc(gold, s, kind);
    if s.kind == kind {
      OverlapGrows(OfKind(gold, kind), OfKind(before, kind), s);
    } else {
      assert OfKind(before + [s], kind) == OfKind(before, kind);
    }
  }

  /** The table has taken in exactly the hits and surplus of `predicted` against `gold`. */
  ghost predicate Agrees(
    updated: Calibration, calibration: Calibration, gold: seq<RelationSignature>, predicted: seq<RelationSignature>,
    k: RelationKind)
  {
    && Correct(updated, k) == Correct(calibration, k) + Score(gold, predicted, k).truePositive
    && Incorrect(updated, k) == Incorrect(calibration, k) + Score(gold, predicted, k).falsePositive
  }

  lemma RecordAgrees(
      updated: Calibration, calibration: Calibration, gold: seq<RelationSignature>, before: seq<RelationSignature>,
      s: RelationSignature, bucket: Bucket, hit: bool)
    requires forall k :: Agrees(updated, calibration, gold, before, k)
    requires hit == ((multiset(gold) - multiset(before))[s] > 0)
    ensures forall k :: Agrees(Record(updated, s.kind, bucket, hit), calibration, gold, before + [s], k)
  {
    hide Correct, Incorrect, Score, Record;
    var after, next := before + [s], Record(updated, s.kind, bucket, hit);
    forall k
      ensures Agrees(next, calibration, gold, after, k)
    {
      assert Agrees(updated, calibration, gold, before, k);
      RecordCounts(updated, s.kind, bucket, hit, k);
      OneMorePrediction(gold, before, s, k);
    }
  }

  /** The confidences a bucket is named for; the outer two are open-ended. */
  ghost predicate Within(bucket: Bucket, confidence: int) {
    match bucket
    case B0000_2499 => confidence <= 2_499
    case B2500_4999 => 2_500 <= confidence <= 4_999
    case B5000_7499 => 5_000 <= confidence <= 7_499
    case B7500_10000 => 7_500 <= confidence
  }

  /** How many relations of a kind have a confidence in the bucket. */
  ghost function NumberWithin(relations: seq<Relation>, slot: Slot): nat {
    if relations == [] then 0
    else
      var last := relations[|relations| - 1];
      NumberWithin(relations[..|relations| - 1], slot)
      + if last.kind == slot.kind && Within(slot.bucket, last.confidence) then 1 else 0
  }

  function Decided(calibration: Calibration, slot: Slot): nat {
    var o := At(calibration, slot.kind, slot.bucket);
    o.correct + o.incorrect
  }

  /** Every bucket has grown by the relations that belong in it. */
  ghost predicate Fills(
    updated: Calibration, calibration: Calibration, relations: seq<Relation>, slot: Slot)
  {
    Decided(updated, slot) == Decided(calibration, slot) + NumberWithin(relations, slot)
  }

  lemma BucketOf(value: int, b: Bucket)
    ensures ConfidenceBucket(value) == b <==> Within(b, value)
  {
  }

  lemma NumberWithinSnoc(before: seq<Relation>, r: Relation, slot: Slot)
    ensures NumberWithin(before + [r], slot)
            == NumberWithin(before, slot) + if r.kind == slot.kind && Within(slot.bucket, r.confidence) then 1 else 0
  {
    assert (before + [r])[..|before|] == before;
  }

  lemma RecordDecides(calibration: Calibration, kind: RelationKind, bucket: Bucket, hit: bool, slot: Slot)
    ensures Decided(Record(calibration, kind, bucket, hit), slot)
            == Decided(calibration, slot) + if slot == Slot(kind, bucket) then 1 else 0
  {
  }

  lemma RecordFills(updated: Calibration, calibration: Calibration, before: seq<Relation>, r: Relation, hit: bool)
    requires forall slot :: Fills(updated, calibration, before, slot)
    ensures forall slot :: Fills(
              Record(updated, r.kind, ConfidenceBucket(r.confidence), hit), calibration, before + [r], slot)
  {
    hide Record, ConfidenceBucket, Decided, NumberWithin, Within;
    forall slot
      ensures Fills(Record(updated, r.kind, ConfidenceBucket(r.confidence), hit), calibration, before + [r], slot)
    {
      assert Fills(updated, calibration, before, slot);
      NumberWithinSnoc(before, r, slot);
      RecordDecides(updated, r.kind, ConfidenceBucket(r.confidence), hit, slot);
      BucketOf(r.confidence, slot.bucket);
    }
  }

  lemma NothingFilled(calibration: Calibration)
    ensures forall slot :: Fills(calibration, calibration, [], slot)
  {
  }

  /** The table after the predictions `seen`, whose signatures are `done`. */
  ghost predicate Keeps(
    updated: Calibration, calibration: Calibration, gold: seq<RelationSignature>, done: seq<RelationSignature>,
    seen: seq<Relation>)
  {
    && (forall k :: Agrees(updated, calibration, gold, done, k))
    && forall slot :: Fills(updated, calibration, seen, slot)
  }

  lemma NothingKept(calibration: Calibration, gold: seq<RelationSignature>)
    ensures Keeps(calibration, calibration, gold, [], [])
  {
    NothingPredicted(gold, calibration);
    NothingFilled(calibration);
  }

  lemma RecordKeeps(
      updated: Calibration, calibration: Calibration, gold: seq<RelationSignature>, done: seq<RelationSignature>,
      seen: seq<Relation>, s: RelationSignature, r: Relation, hit: bool)
    requires Keeps(updated, calibration, gold, done, seen) && s.kind == r.kind
    requires hit == ((multiset(gold) - multiset(done))[s] > 0)
    ensures Keeps(Record(updated, r.kind, ConfidenceBucket(r.confidence), hit), calibration, gold,
                  done + [s], seen + [r])
  {
    hide Agrees, Fills, Record, ConfidenceBucket;
    RecordAgrees(updated, calibration, gold, done, s, ConfidenceBucket(r.confidence), hit);
    RecordFills(updated, calibration, seen, r, hit);
  }

  lemma KeptMeans(
      updated: Calibration, calibration: Calibration, gold: seq<RelationSignature>, done: seq<RelationSignature>,
      seen: seq<Relation>)
    requires Keeps(updated, calibration, gold, done, seen)
    ensures forall k :: Agrees(updated, calibration, gold, done, k)
    ensures forall slot :: Fills(updated, calibration, seen, slot)
  {
    hide Agrees, Fills;
  }

  /** Match the predictions of one case in their order, each gold relation at most once. */
  method MatchCase(
      gold: seq<RelationSignature>, nodes: seq<Node>, relations: seq<Relation>, calibration: Calibration)
    returns (updated: Calibration)
    requires Linked(nodes, relations)
    ensures forall k :: Agrees(updated, calibration, gold, RelationSignatures(nodes, relations), k)
    ensures forall slot :: Fills(updated, calibration, relations, slot)
  {
    hide Keeps, Agrees, Fills, Record, NodeTable, ConfidenceBucket, RelationSignatures, RelationSignatureOf,
         Linked;
    ghost var predicted := RelationSignatures(nodes, relations);
    SignatureCount(nodes, relations);
    updated := calibration;
    var remaining := multiset(gold);
    var table := NodeTable(nodes);
    ghost var done := [];
    NothingKept(calibration, gold);
    assert relations[..0] == [];
    for i := 0 to |relations|
      invariant done == predicted[..i]
      invariant remaining == multiset(gold) - multiset(done)
      invariant Keeps(updated, calibration, gold, done, relations[..i])
    {
      var r := relations[i];
      SignatureAt(nodes, relations, i);
      var signature := RelationSignatureOf(table, r);
      var hit := remaining[signature] > 0;
      RecordKeeps(updated, calibration, gold, done, relations[..i], signature, r, hit);
      assert relations[..i + 1] == relations[..i] + [r];
      updated := Record(updated, r.kind, ConfidenceBucket(r.confidence), hit);
      remaining := Consume(remaining, gold, done, signature, hit);
      done := done + [signature];
    }
    assert predicted[..|relations|] == predicted;
    assert relations[..|relations|] == relations;
    KeptMeans(updated, calibration, gold, predicted, relations);
  }

  /** Use up one gold occurrence on a hit. */
  method Consume(
      remaining: multiset<RelationSignature>, ghost gold: seq<RelationSignature>,
      ghost before: seq<RelationSignature>, s: RelationSignature, hit: bool)
    returns (left: multiset<RelationSignature>)
    requires remaining == multiset(gold) - multiset(before) && hit == (remaining[s] > 0)
    ensures left == multiset(gold) - multiset(before + [s])
  {
    left := if hit then remaining - multiset{s} else remaining;
  }

  lemma NothingPredicted(gold: seq<RelationSignature>, calibration: Calibration)
    ensures forall k :: Agrees(calibration, calibration, gold, [], k)
  {
  }

  // ---------- The whole evaluation ----------

  datatype ScoredCase = ScoredCase(
    goldNodes: seq<Node>, goldRelations: seq<Relation>, predictedNodes: seq<Node>, predictedRelations: seq<Relation>)
  {
    ghost predicate Valid() {
      Linked(goldNodes, goldRelations) && Linked(predictedNodes, predictedRelations)
    }

    function Gold(): seq<RelationSignature>
      requires Valid()
    {
      RelationSignatures(goldNodes, goldRelations)
    }

    function Predicted(): seq<RelationSignature>
      requires Valid()
    {
      RelationSignatures(predictedNodes, predictedRelations)
    }
  }

  ghost predicate AllValid(cases: seq<ScoredCase>) {
    forall i :: 0 <= i < |cases| ==> cases[i].Valid()
  }

  function Plus(a: Counts, b: Counts): Counts {
    Counts(a.truePositive + b.truePositive, a.falsePositive + b.falsePositive, a.falseNegative + b.falseNegative)
  }

  function Total(cases: seq<ScoredCase>, kind: RelationKind): Counts
    requires AllValid(cases)
  {
    if cases == [] then Counts(0, 0, 0)
    else
      var last := cases[|cases| - 1];
      Plus(Total(cases[..|cases| - 1], kind), Score(last.Gold(), last.Predicted(), kind))
  }

  function GoldTotal(cases: seq<ScoredCase>, kind: RelationKind): nat
    requires AllValid(cases)
  {
    if cases == [] then 0
    else GoldTotal(cases[..|cases| - 1], kind) + |OfKind(cases[|cases| - 1].Gold(), kind)|
  }

  function PredictedTotal(cases: seq<ScoredCase>, kind: RelationKind): nat
    requires AllValid(cases)
  {
    if cases == [] then 0
    else PredictedTotal(cases[..|cases| - 1], kind) + |OfKind(cases[|cases| - 1].Predicted(), kind)|
  }

  lemma {:induction false} TotalConserves(cases: seq<ScoredCase>, kind: RelationKind)
    requires AllValid(cases)
    ensures Total(cases, kind).truePositive + Total(cases, kind).falseNegative == GoldTotal(cases, kind)
    ensures Total(cases, kind).truePositive + Total(cases, kind).falsePositive == PredictedTotal(cases, kind)
    decreases |cases|
  {
    if cases != [] {
      var last := cases[|cases| - 1];
      TotalConserves(cases[..|cases| - 1], kind);
      ScoreConserves(last.Gold(), last.Predicted(), kind);
    }
  }

  lemma EveryKindCounted(kind: RelationKind)
    ensures kind in RELATION_KINDS
  {
    var i := match kind
      case Attacks => 0
      case Contradicts => 1
      case Entails => 2
      case Qualifies => 3
      case Rebuts => 4
      case RequestsDefinition => 5
      case RequestsEvidence => 6
      case Supports => 7
      case Undercuts => 8;
    assert RELATION_KINDS[i] == kind;
  }

  /** Add one case to the counts of every kind. */
  method CountCase(counts: map<RelationKind, Counts>, gold: seq<RelationSignature>, predicted: seq<RelationSignature>)
    returns (updated: map<RelationKind, Counts>)
    requires forall k :: k in counts
    ensures forall k :: k in updated && updated[k] == Plus(counts[k], Score(gold, predicted, k))
  {
    hide Score;
    updated := counts;
    for i := 0 to |RELATION_KINDS|
      invariant forall k :: k in updated
      invariant forall k :: updated[k] == if k in RELATION_KINDS[..i] then Plus(counts[k], Score(gold, predicted, k))
                                          else counts[k]
    {
      var kind := RELATION_KINDS[i];
      assert RELATION_KINDS[..i + 1] == RELATION_KINDS[..i] + [kind];
      KindsDistinct(i);
      updated := updated[kind := Plus(updated[kind], Score(gold, predicted, kind))];
    }
    assert RELATION_KINDS[..|RELATION_KINDS|] == RELATION_KINDS;
    forall k
      ensures k in RELATION_KINDS
    {
      EveryKindCounted(k);
    }
  }

  lemma KindsDistinct(i: nat)
    requires i < |RELATION_KINDS|
    ensures RELATION_KINDS[i] !in RELATION_KINDS[..i]
  {
  }

  ghost function TotalWithin(cases: seq<ScoredCase>, slot: Slot): nat {
    if cases == [] then 0
    else
      TotalWithin(cases[..|cases| - 1], slot) + NumberWithin(cases[|cases| - 1].predictedRelations, slot)
  }

  /** Scoring all cases: the matcher's table agrees with the multiset counts kind by kind, and the
      counts account for every gold relation and every prediction. */
  method Evaluate(cases: seq<ScoredCase>) returns (counts: map<RelationKind, Counts>, calibration: Calibration)
    requires AllValid(cases)
    ensures forall k :: k in counts && counts[k] == Total(cases, k)
    ensures forall k :: Correct(calibration, k) == counts[k].truePositive
    ensures forall k :: Incorrect(calibration, k) == counts[k].falsePositive
    ensures forall k :: counts[k].truePositive + counts[k].falseNegative == GoldTotal(cases, k)
    ensures forall k :: counts[k].truePositive + counts[k].falsePositive == PredictedTotal(cases, k)
    ensures forall slot :: Decided(calibration, slot) == TotalWithin(cases, slot)
  {
    hide Score, RelationSignatures, Correct, Incorrect, NumberWithin, Decided;
    forall k
      ensures k in RELATION_KINDS
      ensures Correct(map[], k) == 0 && Incorrect(map[], k) == 0
    {
      EveryKindCounted(k);
      EmptyTable(k);
    }
    forall slot ensures Decided(map[], slot) == 0 {
      EmptySlot(slot);
    }
    counts := map k | k in RELATION_KINDS :: Counts(0, 0, 0);
    calibration := map[];
    for i := 0 to |cases|
      invariant forall k :: k in counts && counts[k] == Total(cases[..i], k)
      invariant forall k :: Correct(calibration, k) == counts[k].truePositive
      invariant forall k :: Incorrect(calibration, k) == counts[k].falsePositive
      invariant forall slot :: Decided(calibration, slot) == TotalWithin(cases[..i], slot)
    {
      assert cases[..i + 1][..i] == cases[..i];
      var c := cases[i];
      ghost var was, table := counts, calibration;
      counts := CountCase(counts, c.Gold(), c.Predicted());
      calibration := MatchCase(c.Gold(), c.predictedNodes, c.predictedRelations, calibration);
      forall k
        ensures Correct(calibration, k) == counts[k].truePositive
        ensures Incorrect(calibration, k) == counts[k].falsePositive
      {
        assert Agrees(calibration, table, c.Gold(), c.Predicted(), k);
        assert counts[k] == Plus(was[k], Score(c.Gold(), c.Predicted(), k));
      }
      forall slot ensures Decided(calibration, slot) == TotalWithin(cases[..i + 1], slot) {
        assert Fills(calibration, table, c.predictedRelations, slot);
      }
    }
    assert cases[..|cases|] == cases;
    forall k
      ensures counts[k].truePositive + counts[k].falseNegative == GoldTotal(cases, k)
      ensures counts[k].truePositive + counts[k].falsePositive == PredictedTotal(cases, k)
    {
      TotalConserves(cases, k);
    }
  }

  lemma EmptySlot(slot: Slot)
    ensures Decided(map[], slot) == 0
  {
  }

  lemma EmptyTable(k: RelationKind)
    ensures Correct(map[], k) == 0 && Incorrect(map[], k) == 0
  {
  }

  // ---------- What the totals are totals of ----------

  function KindCount(relations: seq<Relation>, kind: RelationKind): nat {
    if relations == [] then 0
    else KindCount(relations[..|relations| - 1], kind) + if relations[|relations| - 1].kind == kind then 1 else 0
  }

  lemma {:induction false} OfKindSize(nodes: seq<Node>, relations: seq<Relation>, kind: RelationKind)
    requires Linked(nodes, relations)
    ensures |OfKind(RelationSignatures(nodes, relations), kind)| == KindCount(relations, kind)
    decreases |relations|
  {
    hide NodeTable, OfKind, RelationSignatureOf;
    if relations == [] {
      assert RelationSignatures(nodes, relations) == [];
      NothingOfKind(kind);
    } else {
      var n := |relations| - 1;
      OfKindSize(nodes, relations[..n], kind);
      SignatureAt(nodes, relations, n);
      var s := RelationSignatureOf(NodeTable(nodes), relations[n]);
      assert RelationSignatures(nodes, relations) == RelationSignatures(nodes, relations[..n]) + [s];
      OfKindSnoc(RelationSignatures(nodes, relations[..n]), s, kind);
    }
  }

  lemma NothingOfKind(kind: RelationKind)
    ensures |OfKind([], kind)| == 0
  {
  }

  function GoldCount(cases: seq<ScoredCase>, kind: RelationKind): nat {
    if cases == [] then 0
    else GoldCount(cases[..|cases| - 1], kind) + KindCount(cases[|cases| - 1].goldRelations, kind)
  }

  function PredictedCount(cases: seq<ScoredCase>, kind: RelationKind): nat {
    if cases == [] then 0
    else PredictedCount(cases[..|cases| - 1], kind) + KindCount(cases[|cases| - 1].predictedRelations, kind)
  }

  /** The totals are those of the gold and of the predicted relations of the cases. */
  lemma {:induction false} TotalsMean(cases: seq<ScoredCase>, kind: RelationKind)
    requires AllValid(cases)
    ensures Total(cases, kind).truePositive + Total(cases, kind).falseNegative == GoldCount(cases, kind)
    ensures Total(cases, kind).truePositive + Total(cases, kind).falsePositive == PredictedCount(cases, kind)
    decreases |cases|
  {
    hide Score, OfKind;
    if cases != [] {
      var last := cases[|cases| - 1];
      TotalsMean(cases[..|cases| - 1], kind);
      ScoreConserves(last.Gold(), last.Predicted(), kind);
      OfKindSize(last.goldNodes, last.goldRelations, kind);
      OfKindSize(last.predictedNodes, last.predictedRelations, kind);
    }
  }

  /** One more case adds the score of its predicted against its gold relations. */
  lemma OneMoreCase(cases: seq<ScoredCase>, c: ScoredCase, kind: RelationKind)
    requires AllValid(cases) && c.Valid()
    ensures AllValid(cases + [c])
    ensures var now, was := Total(cases + [c], kind), Total(cases, kind);
            var score := Score(RelationSignatures(c.goldNodes, c.goldRelations),
                               RelationSignatures(c.predictedNodes, c.predictedRelations), kind);
            && now.truePositive == was.truePositive + score.truePositive
            && now.falsePositive == was.falsePositive + score.falsePositive
            && now.falseNegative == was.falseNegative + score.falseNegative
  {
    hide Score, RelationSignatures, Linked;
    assert (cases + [c])[..|cases|] == cases;
  }

  // ---------- What matches what ----------

  /** Two nodes say the same, whatever their ids. */
  ghost predicate SayTheSame(a: Node, b: Node) {
    a.kind == b.kind && a.source == b.source && a.polarity == b.polarity && a.proposition == b.proposition
  }

  /** Node `i` is the last one with that id. */
  ghost predicate LastWith(nodes: seq<Node>, id: string, i: nat) {
    i < |nodes| && nodes[i].id == id && forall j :: i < j < |nodes| ==> nodes[j].id != id
  }

  lemma {:induction false} TableMeans(nodes: seq<Node>, id: string, i: nat)
    requires LastWith(nodes, id, i)
    ensures id in NodeTable(nodes) && NodeTable(nodes)[id] == nodes[i]
    decreases |nodes|
  {
    if i < |nodes| - 1 {
      TableMeans(nodes[..|nodes| - 1], id, i);
    }
  }

  /** A relation of one case matches one of another: the kinds agree, and so do their sources and their
      targets, read in their own cases. */
  ghost predicate Matches(nodes: seq<Node>, r: Relation, nodes': seq<Node>, s: Relation) {
    && r.kind == s.kind
    && (exists i: nat, j: nat ::
          LastWith(nodes, r.from, i) && LastWith(nodes', s.from, j) && SayTheSame(nodes[i], nodes'[j]))
    && (exists i: nat, j: nat ::
          LastWith(nodes, r.to, i) && LastWith(nodes', s.to, j) && SayTheSame(nodes[i], nodes'[j]))
  }

  lemma {:induction false} InTable(nodes: seq<Node>, id: string) returns (i: nat)
    requires id in NodeTable(nodes)
    ensures LastWith(nodes, id, i) && NodeTable(nodes)[id] == nodes[i]
    decreases |nodes|
  {
    var n := |nodes| - 1;
    if nodes[n].id == id {
      i := n;
    } else {
      i := InTable(nodes[..n], id);
    }
  }

  lemma SameEnd(nodes: seq<Node>, id: string, nodes': seq<Node>, id': string)
    requires id in NodeTable(nodes) && id' in NodeTable(nodes')
    ensures SignatureOf(NodeTable(nodes)[id]) == SignatureOf(NodeTable(nodes')[id'])
            <==> exists i: nat, j: nat ::
                   LastWith(nodes, id, i) && LastWith(nodes', id', j) && SayTheSame(nodes[i], nodes'[j])
  {
    hide NodeTable;
    var i := InTable(nodes, id);
    var j := InTable(nodes', id');
    if i: nat, j: nat :| LastWith(nodes, id, i) && LastWith(nodes', id', j) && SayTheSame(nodes[i], nodes'[j]) {
      TableMeans(nodes, id, i);
      TableMeans(nodes', id', j);
    }
  }

  /** Two relations have one signature exactly when they match. */
  lemma SignaturesAgreeIff(nodes: seq<Node>, r: Relation, nodes': seq<Node>, s: Relation)
    requires r.from in NodeTable(nodes) && r.to in NodeTable(nodes)
    requires s.from in NodeTable(nodes') && s.to in NodeTable(nodes')
    ensures RelationSignatureOf(NodeTable(nodes), r) == RelationSignatureOf(NodeTable(nodes'), s)
            <==> Matches(nodes, r, nodes', s)
  {
    hide NodeTable, LastWith, SayTheSame, SignatureOf;
    SameEnd(nodes, r.from, nodes', s.from);
    SameEnd(nodes, r.to, nodes', s.to);
  }

  /** A single prediction is a true positive exactly when it matches some gold relation, and a false positive
      otherwise. */
  lemma SinglePrediction(
      goldNodes: seq<Node>, goldRelations: seq<Relation>, nodes: seq<Node>, s: Relation)
    requires Linked(goldNodes, goldRelations) && Linked(nodes, [s])
    ensures var counts := Score(RelationSignatures(goldNodes, goldRelations), RelationSignatures(nodes, [s]), s.kind);
            var hit := exists i :: 0 <= i < |goldRelations| && Matches(goldNodes, goldRelations[i], nodes, s);
            counts.truePositive == (if hit then 1 else 0) && counts.falsePositive == (if hit then 0 else 1)
  {
    hide NodeTable, Matches, Score, RelationSignatureOf, Linked, RelationSignatures;
    var gold := RelationSignatures(goldNodes, goldRelations);
    var hit := exists i :: 0 <= i < |goldRelations| && Matches(goldNodes, goldRelations[i], nodes, s);
    SignatureAt(nodes, [s], 0);
    var signature := RelationSignatureOf(NodeTable(nodes), s);
    assert RelationSignatures(nodes, [s]) == [signature];
    SignatureCount(goldNodes, goldRelations);
    forall i | 0 <= i < |goldRelations|
      ensures gold[i] == signature <==> Matches(goldNodes, goldRelations[i], nodes, s)
    {
      SignatureAt(goldNodes, goldRelations, i);
      SignaturesAgreeIff(goldNodes, goldRelations[i], nodes, s);
    }
    assert signature in gold <==> hit;
    assert [] + [signature] == [signature] && multiset(gold) - multiset([]) == multiset(gold);
    OneMorePrediction(gold, [], signature, s.kind);
    NoPrediction(gold, s.kind);
  }

  lemma NoPrediction(gold: seq<RelationSignature>, kind: RelationKind)
    ensures Score(gold, [], kind).truePositive == 0 && Score(gold, [], kind).falsePositive == 0
  {
  }

  // ---------- Ratios ----------

  function RatioBasisPoints(numerator: nat, denominator: nat): Option<nat> {
    if denominator == 0 then None else Some(numerator * 10_000 / denominator)
  }

  /** A share of a whole is at most 10,000 basis points, and exactly that only for the whole. */
  lemma RatioOfPart(part: nat, rest: nat)
    ensures RatioBasisPoints(part, part + rest).None? <==> part + rest == 0
    ensures RatioBasisPoints(part, part + rest).Some?
            ==> && RatioBasisPoints(part, part + rest).value <= 10_000
                && (RatioBasisPoints(part, part + rest).value == 10_000 <==> rest == 0)
  {
    var whole := part + rest;
    if whole > 0 {
      var q := part * 10_000 / whole;
      assert q * whole <= part * 10_000 < q * whole + whole;
      if q > 10_000 {
        ProductMonotone(10_001, q, whole);
      } else if q < 10_000 {
        ProductMonotone(q + 1, 10_000, whole);
      }
    }
  }

  /** A ratio is rounded down. */
  lemma RatioRoundsDown(numerator: nat, denominator: nat)
    ensures denominator == 0 ==> RatioBasisPoints(numerator, denominator) == None
    ensures denominator > 0
            ==> && RatioBasisPoints(numerator, denominator).Some?
                && var r := RatioBasisPoints(numerator, denominator).value;
                   r * denominator <= numerator * 10_000 < (r + 1) * denominator
  {
  }

  /** Precision is perfect exactly without false positives, recall exactly without false negatives. */
  lemma MetricsPerfect(c: Counts)
    ensures var precision := RatioBasisPoints(c.truePositive, c.truePositive + c.falsePositive);
            precision.Some? ==> precision.value <= 10_000 && (precision.value == 10_000 <==> c.falsePositive == 0)
    ensures var recall := RatioBasisPoints(c.truePositive, c.truePositive + c.falseNegative);
            recall.Some? ==> recall.value <= 10_000 && (recall.value == 10_000 <==> c.falseNegative == 0)
  {
    RatioOfPart(c.truePositive, c.falsePositive);
    RatioOfPart(c.truePositive, c.falseNegative);
  }
}
