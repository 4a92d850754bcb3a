/** Type-directed edges: who can feed whom, and the breadth-first search for call chains. */
module TypeEdges {
  import opened Composition
  import opened StableSort
  import opened KeyOrder
  import opened CodeGraphs

  type Atoms = map<CodeAtomId, CodeAtom>

  /** The edge relation: distinct atoms of one language, and the producer's output composes with the
      consumer's first parameter. */
  predicate Feeds(p: CodeAtom, c: CodeAtom) {
    && p.id != c.id && p.lang == c.lang
    && p.returnType.Some? && c.params != []
    && Composes(p.returnType.value, c.params[0].ty)
  }

  function Verdict(p: CodeAtom, c: CodeAtom): ComposeResult
    requires Feeds(p, c)
  {
    TypesCompose(p.returnType.value, c.params[0].ty)
  }

  datatype Match = Match(atom: CodeAtom, result: ComposeResult, confidence: real)

  function MatchOf(atom: CodeAtom, result: ComposeResult): Match {
    Match(atom, result, result.Confidence())
  }

  /** Descending confidence, then ascending id. */
  predicate BetterFirst(a: Match, b: Match) {
    a.confidence > b.confidence || (a.confidence == b.confidence && KeyLe(a.atom.id, b.atom.id))
  }

  lemma BetterFirstIsPreorder()
    ensures TotalPreorder(BetterFirst)
  {
    forall a, b
      ensures BetterFirst(a, b) || BetterFirst(b, a)
    {
      KeyLeTotal(a.atom.id, b.atom.id);
    }
    forall a, b, c | BetterFirst(a, b) && BetterFirst(b, c)
      ensures BetterFirst(a, c)
    {
      if a.confidence == b.confidence == c.confidence {
        KeyLeTransitive(a.atom.id, b.atom.id, c.atom.id);
      }
    }
  }

  // ---------- Producers and consumers ----------

  function Fed(atoms: Atoms, keys: seq<CodeAtomId>, producer: CodeAtom): seq<Match>
    requires forall k :: k in keys ==> k in atoms
  {
    if keys == [] then []
    else
      var k := keys[|keys| - 1];
      Fed(atoms, keys[..|keys| - 1], producer)
      + if Feeds(producer, atoms[k]) then [MatchOf(atoms[k], Verdict(producer, atoms[k]))] else []
  }

  function Feeding(atoms: Atoms, keys: seq<CodeAtomId>, consumer: CodeAtom): seq<Match>
    requires forall k :: k in keys ==> k in atoms
  {
    if keys == [] then []
    else
      var k := keys[|keys| - 1];
      Feeding(atoms, keys[..|keys| - 1], consumer)
      + if Feeds(atoms[k], consumer) then [MatchOf(atoms[k], Verdict(atoms[k], consumer))] else []
  }

  function Keys(atoms: Atoms): (keys: seq<CodeAtomId>)
    ensures forall k :: k in keys <==> k in atoms
    ensures Distinct(keys)
  {
    SortedKeysExact(atoms.Keys);
    SortedKeys(atoms.Keys)
  }

  function Consumers(atoms: Atoms, producer: CodeAtom): seq<Match> {
    Sort(Fed(atoms, Keys(atoms), producer), BetterFirst)
  }

  function Producers(atoms: Atoms, consumer: CodeAtom): seq<Match> {
    Sort(Feeding(atoms, Keys(atoms), consumer), BetterFirst)
  }

  method FindConsumers(graph: CodeGraph, producer: CodeAtom) returns (results: seq<Match>)
    ensures results == Consumers(graph.atoms, producer)
  {
    results := [];
    var keys := Keys(graph.atoms);
    if producer.returnType.None? {
      NothingFed(graph.atoms, keys, producer);
      return;
    }
    for i := 0 to |keys|
      invariant results == Fed(graph.atoms, keys[..i], producer)
    {
      assert keys[..i + 1][..i] == keys[..i];
      var atom := graph.atoms[keys[i]];
      if atom.id == producer.id || atom.lang != producer.lang {
        continue;
      }
      if atom.params != [] {
        var result := TypesCompose(producer.returnType.value, atom.params[0].ty);
        if result.CanCompose() {
          results := results + [Match(atom, result, result.Confidence())];
        }
      }
    }
    assert keys[..|keys|] == keys;
    results := Sort(results, BetterFirst);
  }

  lemma {:induction false} NothingFed(atoms: Atoms, keys: seq<CodeAtomId>, producer: CodeAtom)
    requires producer.returnType.None?
    requires forall k :: k in keys ==> k in atoms
    ensures Fed(atoms, keys, producer) == []
    decreases |keys|
  {
    if keys != [] {
      NothingFed(atoms, keys[..|keys| - 1], producer);
    }
  }

  method FindProducers(graph: CodeGraph, consumer: CodeAtom) returns (results: seq<Match>)
    ensures results == Producers(graph.atoms, consumer)
  {
    results := [];
    var keys := Keys(graph.atoms);
    for i := 0 to |keys|
      invariant results == Feeding(graph.atoms, keys[..i], consumer)
    {
      assert keys[..i + 1][..i] == keys[..i];
      var atom := graph.atoms[keys[i]];
      if atom.id == consumer.id || atom.lang != consumer.lang {
        continue;
      }
      if atom.returnType.Some? && consumer.params != [] {
        var result := TypesCompose(atom.returnType.value, consumer.params[0].ty);
        if result.CanCompose() {
          results := results + [Match(atom, result, result.Confidence())];
        }
      }
    }
    assert keys[..|keys|] == keys;
    results := Sort(results, BetterFirst);
  }

  ghost predicate IsConsumer(atoms: Atoms, producer: CodeAtom, m: Match) {
    && m.atom.id in atoms && m.atom == atoms[m.atom.id]
    && Feeds(producer, m.atom) && m == MatchOf(m.atom, Verdict(producer, m.atom))
  }

  ghost predicate IsProducer(atoms: Atoms, consumer: CodeAtom, m: Match) {
    && m.atom.id in atoms && m.atom == atoms[m.atom.id]
    && Feeds(m.atom, consumer) && m == MatchOf(m.atom, Verdict(m.atom, consumer))
  }

  lemma {:induction false} FedExact(atoms: Atoms, keys: seq<CodeAtomId>, producer: CodeAtom)
    requires WellKeyed(atoms) && Distinct(keys)
    requires forall k :: k in keys ==> k in atoms
    ensures forall m :: m in Fed(atoms, keys, producer) <==> IsConsumer(atoms, producer, m) && m.atom.id in keys
    ensures DistinctIds(Fed(atoms, keys, producer))
    decreases |keys|
  {
    if keys != [] {
      var init, k := keys[..|keys| - 1], keys[|keys| - 1];
      assert keys == init + [k] && k !in init;
      FedExact(atoms, init, producer);
      forall m | m in Fed(atoms, init, producer)
        ensures m.atom.id != k
      {
      }
    }
  }

  ghost predicate DistinctIds(ms: seq<Match>) {
    forall i, j :: 0 <= i < j < |ms| ==> ms[i].atom.id != ms[j].atom.id
  }

  lemma {:induction false} FeedingExact(atoms: Atoms, keys: seq<CodeAtomId>, consumer: CodeAtom)
    requires WellKeyed(atoms) && Distinct(keys)
    requires forall k :: k in keys ==> k in atoms
    ensures forall m :: m in Feeding(atoms, keys, consumer) <==> IsProducer(atoms, consumer, m) && m.atom.id in keys
    decreases |keys|
  {
    if keys != [] {
      var init, k := keys[..|keys| - 1], keys[|keys| - 1];
      assert keys == init + [k] && k !in init;
      FeedingExact(atoms, init, consumer);
    }
  }

  /** The consumer list holds exactly the composing atoms, best first, each once. */
  lemma ConsumersExact(atoms: Atoms, producer: CodeAtom)
    requires WellKeyed(atoms)
    ensures forall m :: m in Consumers(atoms, producer) <==> IsConsumer(atoms, producer, m)
    ensures SortedBy(Consumers(atoms, producer), BetterFirst)
    ensures DistinctIds(Consumers(atoms, producer))
  {
    var fed := Fed(atoms, Keys(atoms), producer);
    FedExact(atoms, Keys(atoms), producer);
    SortMembers(fed, BetterFirst);
    BetterFirstIsPreorder();
    SortSorts(fed, BetterFirst);
    SortPermutes(fed, BetterFirst);
    DistinctIdsPermute(fed, Sort(fed, BetterFirst));
  }

  lemma DistinctIdsPermute(ms: seq<Match>, ns: seq<Match>)
    requires multiset(ms) == multiset(ns) && DistinctIds(ms)
    ensures DistinctIds(ns)
  {
    SameElements(ms, ns);
    forall i, j | 0 <= i < j < |ns|
      ensures ns[i].atom.id != ns[j].atom.id
    {
      assert ns[i] in ms && ns[j] in ms;
      if ns[i].atom.id == ns[j].atom.id {
        assert ns[i] == ns[j];
        TwiceInMultiset(ns, i, j);
        OnceInMultiset(ms, ns[i]);
      }
    }
  }

  lemma TwiceInMultiset<T>(s: seq<T>, i: nat, j: nat)
    requires i < j < |s| && s[i] == s[j]
    ensures multiset(s)[s[i]] >= 2
  {
    assert s == s[..i] + [s[i]] + s[i + 1..j] + [s[j]] + s[j + 1..];
  }

  lemma {:induction false} OnceInMultiset(ms: seq<Match>, m: Match)
    requires DistinctIds(ms)
    ensures multiset(ms)[m] <= 1
    decreases |ms|
  {
    if ms != [] {
      assert ms == [ms[0]] + ms[1..];
      OnceInMultiset(ms[1..], m);
      if m == ms[0] {
        assert m !in ms[1..];
        assert multiset(ms[1..])[m] == 0;
      }
    }
  }

  /** `find_producers` is the converse of `find_consumers`, verdict and confidence included. */
  lemma ProducersConverse(atoms: Atoms, p: CodeAtomId, c: CodeAtomId, result: ComposeResult)
    requires WellKeyed(atoms) && p in atoms && c in atoms
    ensures MatchOf(atoms[c], result) in Consumers(atoms, atoms[p])
            <==> MatchOf(atoms[p], result) in Producers(atoms, atoms[c])
  {
    hide Feeds, Verdict, Keys;
    FedExact(atoms, Keys(atoms), atoms[p]);
    SortMembers(Fed(atoms, Keys(atoms), atoms[p]), BetterFirst);
    FeedingExact(atoms, Keys(atoms), atoms[c]);
    SortMembers(Feeding(atoms, Keys(atoms), atoms[c]), BetterFirst);
  }

  // ---------- The lists, field by field ----------

  /** `m` reports that the output of `p` composes with the first parameter of `c`, another atom of the same
      language, with the verdict and its confidence. */
  ghost predicate Reports(p: CodeAtom, c: CodeAtom, m: Match) {
    && p.id != c.id && p.lang == c.lang && p.returnType.Some? && |c.params| > 0
    && m.result == TypesCompose(p.returnType.value, c.params[0].ty) && m.result != NoMatch
    && m.confidence == m.result.Confidence()
  }

  /** What stands in either list, and nothing else does. */
  lemma ListsReport(atoms: Atoms, a: CodeAtom, m: Match)
    requires WellKeyed(atoms)
    ensures m in Consumers(atoms, a) <==> m.atom in atoms.Values && Reports(a, m.atom, m)
    ensures m in Producers(atoms, a) <==> m.atom in atoms.Values && Reports(m.atom, a, m)
  {
    hide TypesCompose;
    FedExact(atoms, Keys(atoms), a);
    SortMembers(Fed(atoms, Keys(atoms), a), BetterFirst);
    FeedingExact(atoms, Keys(atoms), a);
    SortMembers(Feeding(atoms, Keys(atoms), a), BetterFirst);
    if m.atom in atoms.Values {
      var k :| k in atoms && atoms[k] == m.atom;
    }
  }

  /** The more confident match stands first; between equally confident ones the lower id. */
  lemma ListsInOrder(atoms: Atoms, a: CodeAtom, ms: seq<Match>, i: nat, j: nat)
    requires ms == Consumers(atoms, a) || ms == Producers(atoms, a)
    requires i < j < |ms|
    ensures ms[i].confidence >= ms[j].confidence
    ensures ms[i].confidence == ms[j].confidence ==> KeyLe(ms[i].atom.id, ms[j].atom.id)
  {
    BetterFirstIsPreorder();
    SortSorts(Fed(atoms, Keys(atoms), a), BetterFirst);
    SortSorts(Feeding(atoms, Keys(atoms), a), BetterFirst);
    assert BetterFirst(ms[i], ms[j]);
  }
}
