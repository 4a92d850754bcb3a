/** Materialising the type-directed edges of a graph, and scoring a chain of atoms. */
module EdgeBuilder {
  import opened Composition
  import opened StableSort
  import opened KeyOrder
  import opened CodeGraphs
  import opened TypeEdges
  import opened ChainSearch

  function Note(result: ComposeResult, lang: CodeLang): string {
    "type-match:" + result.Label() + ":lang:" + lang.AsStr()
  }

  function ComposesEdge(producer: CodeAtom, m: Match): CodeRelation {
    CodeRelation(producer.id, m.atom.id, RelComposes, producer.lang, Note(m.result, producer.lang))
  }

  function EdgesTo(producer: CodeAtom, matches: seq<Match>): seq<CodeRelation> {
    if matches == [] then []
    else EdgesTo(producer, matches[..|matches| - 1]) + [ComposesEdge(producer, matches[|matches| - 1])]
  }

  function EdgesAmong(atoms: Atoms, keys: seq<CodeAtomId>): seq<CodeRelation>
    requires forall k :: k in keys ==> k in atoms
  {
    if keys == [] then []
    else
      var producer := atoms[keys[|keys| - 1]];
      EdgesAmong(atoms, keys[..|keys| - 1]) + EdgesTo(producer, Consumers(atoms, producer))
  }

  /** The edges one pass over the graph appends. They depend on the atoms alone, so a second pass
      appends the same edges once more. */
  function BuiltEdges(atoms: Atoms): seq<CodeRelation> {
    EdgesAmong(atoms, Keys(atoms))
  }

  /** Record one atom's consumers. */
  method AddEdges(graph: CodeGraph, producer: CodeAtom, matches: seq<Match>)
    requires graph.Valid()
    modifies graph
    ensures graph.Valid() && graph.atoms == old(graph.atoms)
    ensures graph.edges == old(graph.edges) + EdgesTo(producer, matches)
  {
    hide Rebuilt, WellKeyed, Note;
    for j := 0 to |matches|
      invariant graph.Valid() && graph.atoms == old(graph.atoms)
      invariant graph.edges == old(graph.edges) + EdgesTo(producer, matches[..j])
    {
      assert matches[..j + 1][..j] == matches[..j];
      graph.AddRelation(ComposesEdge(producer, matches[j]));
    }
    assert matches[..|matches|] == matches;
  }

  method BuildTypeEdges(graph: CodeGraph)
    requires graph.Valid()
    modifies graph
    ensures graph.Valid() && graph.atoms == old(graph.atoms)
    ensures graph.edges == old(graph.edges) + BuiltEdges(graph.atoms)
  {
    hide Consumers, Rebuilt, EdgesTo, Keys;
    ghost var atoms := graph.atoms;
    var ids := Keys(graph.atoms);
    for i := 0 to |ids|
      invariant graph.Valid() && graph.atoms == atoms
      invariant graph.edges == old(graph.edges) + EdgesAmong(atoms, ids[..i])
    {
      assert ids[..i + 1][..i] == ids[..i];
      var atom := graph.atoms[ids[i]];
      var consumers := FindConsumers(graph, atom);
      AddEdges(graph, atom, consumers);
    }
    assert ids[..|ids|] == ids;
  }

  function Between(a: CodeAtomId, b: CodeAtomId): CodeRelation -> bool {
    (r: CodeRelation) => r.from == a && r.to == b
  }

  lemma {:induction false} EdgesToBetween(producer: CodeAtom, matches: seq<Match>, a: CodeAtomId, b: CodeAtomId)
    requires DistinctIds(matches)
    ensures producer.id != a || (forall m :: m in matches ==> m.atom.id != b)
            ==> Filter(EdgesTo(producer, matches), Between(a, b)) == []
    ensures forall m :: producer.id == a && m in matches && m.atom.id == b
                        ==> Filter(EdgesTo(producer, matches), Between(a, b)) == [ComposesEdge(producer, m)]
    decreases |matches|
  {
    hide Note;
    if matches != [] {
      var n := |matches| - 1;
      var init, last := matches[..n], matches[n];
      assert matches == init + [last];
      EdgesToBetween(producer, init, a, b);
      FilterSnoc(EdgesTo(producer, init), ComposesEdge(producer, last), Between(a, b));
    }
  }

  lemma {:induction false} EdgesAmongBetween(atoms: Atoms, keys: seq<CodeAtomId>, a: CodeAtomId, b: CodeAtomId)
    requires WellKeyed(atoms) && Distinct(keys) && b in atoms
    requires forall k :: k in keys ==> k in atoms
    ensures Filter(EdgesAmong(atoms, keys), Between(a, b))
            == if a in keys && Feeds(atoms[a], atoms[b])
               then [ComposesEdge(atoms[a], MatchOf(atoms[b], Verdict(atoms[a], atoms[b])))] else []
    decreases |keys|
  {
    hide Consumers, Feeds, Verdict, ComposesEdge, EdgesTo, Filter, Between;
    if keys == [] {
      NoEdgesBetween(a, b);
    } else {
      var n := |keys| - 1;
      var init, k := keys[..n], keys[n];
      assert keys == init + [k] && k !in init;
      EdgesAmongBetween(atoms, init, a, b);
      EdgesFromOne(atoms, k, a, b);
      FilterConcat(EdgesAmong(atoms, init), EdgesTo(atoms[k], Consumers(atoms, atoms[k])), Between(a, b));
    }
  }

  lemma NoEdgesBetween(a: CodeAtomId, b: CodeAtomId)
    ensures Filter([], Between(a, b)) == []
  {
  }

  /** What one producer contributes to a pair. */
  lemma EdgesFromOne(atoms: Atoms, k: CodeAtomId, a: CodeAtomId, b: CodeAtomId)
    requires WellKeyed(atoms) && k in atoms && b in atoms
    ensures Filter(EdgesTo(atoms[k], Consumers(atoms, atoms[k])), Between(a, b))
            == if k == a && Feeds(atoms[a], atoms[b])
               then [ComposesEdge(atoms[a], MatchOf(atoms[b], Verdict(atoms[a], atoms[b])))] else []
  {
    hide Consumers, Feeds, Verdict, ComposesEdge, EdgesTo, Filter, Between;
    var consumers := Consumers(atoms, atoms[k]);
    ConsumersExact(atoms, atoms[k]);
    EdgesToBetween(atoms[k], consumers, a, b);
    if k == a && Feeds(atoms[a], atoms[b]) {
      assert IsConsumer(atoms, atoms[k], MatchOf(atoms[b], Verdict(atoms[k], atoms[b])));
    }
  }

  /** Exactly one edge per ordered pair of distinct composing atoms of one language, none otherwise. */
  lemma OneEdgePerPair(atoms: Atoms, a: CodeAtomId, b: CodeAtomId)
    requires WellKeyed(atoms) && a in atoms && b in atoms
    ensures Filter(BuiltEdges(atoms), Between(a, b))
            == if Feeds(atoms[a], atoms[b])
               then [ComposesEdge(atoms[a], MatchOf(atoms[b], Verdict(atoms[a], atoms[b])))] else []
  {
    EdgesAmongBetween(atoms, Keys(atoms), a, b);
  }

  lemma {:induction false} EdgesToEndpoints(producer: CodeAtom, matches: seq<Match>, r: CodeRelation)
    requires r in EdgesTo(producer, matches)
    ensures exists m :: m in matches && r == ComposesEdge(producer, m)
    decreases |matches|
  {
    var n := |matches| - 1;
    if r in EdgesTo(producer, matches[..n]) {
      EdgesToEndpoints(producer, matches[..n], r);
    } else {
      assert matches[n] in matches;
    }
  }

  /** Every appended edge joins registered atoms, so it never adds a missing endpoint. */
  lemma {:induction false} EdgesStayInside(atoms: Atoms, keys: seq<CodeAtomId>, r: CodeRelation)
    requires WellKeyed(atoms) && forall k :: k in keys ==> k in atoms
    requires r in EdgesAmong(atoms, keys)
    ensures r.from in atoms && r.to in atoms && r.relType == RelComposes && Feeds(atoms[r.from], atoms[r.to])
    decreases |keys|
  {
    hide Consumers, Feeds, Note;
    var n := |keys| - 1;
    var producer := atoms[keys[n]];
    if r in EdgesAmong(atoms, keys[..n]) {
      EdgesStayInside(atoms, keys[..n], r);
    } else {
      EdgesToEndpoints(producer, Consumers(atoms, producer), r);
      ConsumersExact(atoms, producer);
    }
  }

  // ---------- Scoring ----------

  /** What one step contributes; steps outside the graph or without types contribute nothing. */
  function StepScore(atoms: Atoms, p: CodeAtomId, c: CodeAtomId): real {
    if p in atoms && c in atoms && atoms[p].returnType.Some? && atoms[c].params != []
    then TypesCompose(atoms[p].returnType.value, atoms[c].params[0].ty).Confidence()
    else 0.0
  }

  function TotalScore(atoms: Atoms, steps: Path, n: nat): real
    requires n < |steps|
  {
    if n == 0 then 0.0 else TotalScore(atoms, steps, n - 1) + StepScore(atoms, steps[n - 1], steps[n])
  }

  function Score(atoms: Atoms, steps: Path): real {
    if |steps| <= 1 then 1.0 else TotalScore(atoms, steps, |steps| - 1) / (|steps| - 1) as real
  }

  method ScoreChain(graph: CodeGraph, chain: CallChain) returns (score: real)
    ensures score == Score(graph.atoms, chain.steps)
  {
    var steps := chain.steps;
    if |steps| <= 1 {
      return 1.0;
    }
    var total := 0.0;
    for i := 0 to |steps| - 1
      invariant total == TotalScore(graph.atoms, steps, i)
    {
      if steps[i] !in graph.atoms {
        continue;
      }
      if steps[i + 1] !in graph.atoms {
        continue;
      }
      var producer, consumer := graph.atoms[steps[i]], graph.atoms[steps[i + 1]];
      if producer.returnType.Some? && consumer.params != [] {
        total := total + TypesCompose(producer.returnType.value, consumer.params[0].ty).Confidence();
      }
    }
    return total / (|steps| - 1) as real;
  }

  /** Step `i` of the path feeds on exactly the type its predecessor produces. */
  ghost predicate ExactStep(atoms: Atoms, path: Path, i: nat)
    requires i + 1 < |path| && path[i] in atoms && path[i + 1] in atoms
  {
    var p, c := atoms[path[i]], atoms[path[i + 1]];
    p.returnType.Some? && c.params != [] && p.returnType.value == c.params[0].ty
  }

  lemma StepScoreBounds(atoms: Atoms, start: CodeAtomId, path: Path, i: nat)
    requires SimplePath(atoms, start, path) && i + 1 < |path|
    ensures 0.3 <= StepScore(atoms, path[i], path[i + 1]) <= 1.0
    ensures StepScore(atoms, path[i], path[i + 1]) == 1.0 <==> ExactStep(atoms, path, i)
  {
    hide TypesCompose;
    var p, c := atoms[path[i]], atoms[path[i + 1]];
    assert Feeds(p, c);
    VerdictMeaning(p.returnType.value, c.params[0].ty);
  }

  lemma {:induction false} TotalBounds(atoms: Atoms, start: CodeAtomId, path: Path, n: nat)
    requires SimplePath(atoms, start, path) && n < |path|
    ensures 0.3 * n as real <= TotalScore(atoms, path, n) <= n as real
    ensures TotalScore(atoms, path, n) == n as real <==> forall i :: 0 <= i < n ==> ExactStep(atoms, path, i)
    decreases n
  {
    hide StepScore, SimplePath;
    if n > 0 {
      SimplePathInGraph(atoms, start, path);
      TotalBounds(atoms, start, path, n - 1);
      StepScoreBounds(atoms, start, path, n - 1);
    }
  }

  lemma SimplePathInGraph(atoms: Atoms, start: CodeAtomId, path: Path)
    requires SimplePath(atoms, start, path)
    ensures forall i :: 0 <= i < |path| ==> path[i] in atoms
  {
  }

  /** A chain the search returns never scores below the weakest verdict, and scores one exactly when
      every step passes on the very same type. */
  lemma ScoreOfFoundChain(atoms: Atoms, start: CodeAtomId, path: Path)
    requires SimplePath(atoms, start, path)
    ensures 0.3 <= Score(atoms, path) <= 1.0
    ensures Score(atoms, path) == 1.0 <==> forall i :: 0 <= i < |path| - 1 ==> ExactStep(atoms, path, i)
  {
    if |path| > 1 {
      TotalBounds(atoms, start, path, |path| - 1);
      Quotient(TotalScore(atoms, path, |path| - 1), (|path| - 1) as real);
    }
  }

  lemma Quotient(total: real, n: real)
    requires n > 0.0 && 0.3 * n <= total <= n
    ensures 0.3 <= total / n <= 1.0
    ensures total / n == 1.0 <==> total == n
  {
    var q := total / n;
    assert q * n == total;
  }

  // ---------- Edges and scores, field by field ----------

  /** The words for the verdicts and languages in a note. */
  ghost function VerdictWord(r: ComposeResult): string {
    match r
    case Exact => "exact"
    case GenericMatch => "generic"
    case Unwrap => "unwrap"
    case OptionUnwrap => "option-unwrap"
    case RefUnwrap => "ref-unwrap"
    case RefBorrow => "ref-borrow"
    case Wildcard => "wildcard"
    case NoMatch => "no-match"
  }

  ghost function LanguageWord(lang: CodeLang): string {
    match lang
    case Rust => "rust"
    case Python => "python"
    case TypeScript => "typescript"
    case Haskell => "haskell"
  }

  /** Which edges one pass builds: between two atoms of one language whose types compose, and with a note of
      the verdict and the language. */
  lemma BuiltEdgesMean(atoms: Atoms, r: CodeRelation)
    requires WellKeyed(atoms)
    ensures r in BuiltEdges(atoms)
            <==> && r.from in atoms && r.to in atoms && r.from != r.to
                 && var p, c := atoms[r.from], atoms[r.to];
                    && p.lang == c.lang && p.returnType.Some? && |c.params| > 0
                    && var verdict := TypesCompose(p.returnType.value, c.params[0].ty);
                       && verdict != NoMatch && r.relType == RelComposes && r.lang == p.lang
                       && r.note == "type-match:" + VerdictWord(verdict) + ":lang:" + LanguageWord(p.lang)
  {
    hide TypesCompose, Keys, EdgesAmong, Filter;
    if r in BuiltEdges(atoms) {
      EdgesStayInside(atoms, Keys(atoms), r);
    }
    if r.from in atoms && r.to in atoms {
      OneEdgePerPair(atoms, r.from, r.to);
      FilterMember(BuiltEdges(atoms), Between(r.from, r.to), r);
      if Feeds(atoms[r.from], atoms[r.to]) {
        var edge := ComposesEdge(atoms[r.from], MatchOf(atoms[r.to], Verdict(atoms[r.from], atoms[r.to])));
        FilterMember(BuiltEdges(atoms), Between(r.from, r.to), edge);
      }
    }
  }

  /** The edges come producer by producer, in the order of their ids. */
  lemma {:induction false} EdgesInOrder(atoms: Atoms, keys: seq<CodeAtomId>, i: nat, j: nat)
    requires WellKeyed(atoms) && forall k :: k in keys ==> k in atoms
    requires forall a, b :: 0 <= a < b < |keys| ==> KeyLe(keys[a], keys[b])
    requires i < j < |EdgesAmong(atoms, keys)|
    ensures KeyLe(EdgesAmong(atoms, keys)[i].from, EdgesAmong(atoms, keys)[j].from)
    ensures EdgesAmong(atoms, keys)[j].from in keys && EdgesAmong(atoms, keys)[i].from in keys
    decreases |keys|
  {
    hide Consumers, ComposesEdge;
    var n := |keys| - 1;
    var init, k := keys[..n], keys[n];
    assert keys == init + [k];
    var before, after := EdgesAmong(atoms, init), EdgesTo(atoms[k], Consumers(atoms, atoms[k]));
    if j < |before| {
      EdgesInOrder(atoms, init, i, j);
    } else {
      EdgesFromProducer(atoms[k], Consumers(atoms, atoms[k]), j - |before|);
      if i < |before| {
        SourceAmong(atoms, init, i);
      } else {
        EdgesFromProducer(atoms[k], Consumers(atoms, atoms[k]), i - |before|);
        KeyLeTotal(k, k);
      }
    }
  }

  lemma {:induction false} EdgesFromProducer(producer: CodeAtom, matches: seq<Match>, i: nat)
    requires i < |EdgesTo(producer, matches)|
    ensures EdgesTo(producer, matches)[i].from == producer.id
    decreases |matches|
  {
    if i < |EdgesTo(producer, matches[..|matches| - 1])| {
      EdgesFromProducer(producer, matches[..|matches| - 1], i);
    }
  }

  lemma {:induction false} SourceAmong(atoms: Atoms, keys: seq<CodeAtomId>, i: nat)
    requires WellKeyed(atoms) && forall k :: k in keys ==> k in atoms
    requires i < |EdgesAmong(atoms, keys)|
    ensures exists a :: 0 <= a < |keys| && keys[a] == EdgesAmong(atoms, keys)[i].from
    decreases |keys|
  {
    hide Consumers, ComposesEdge;
    var n := |keys| - 1;
    var before := EdgesAmong(atoms, keys[..n]);
    if i < |before| {
      SourceAmong(atoms, keys[..n], i);
      var a :| 0 <= a < n && keys[..n][a] == before[i].from;
      assert keys[a] == before[i].from;
    } else {
      EdgesFromProducer(atoms[keys[n]], Consumers(atoms, atoms[keys[n]]), i - |before|);
    }
  }

  lemma BuiltInOrder(atoms: Atoms, i: nat, j: nat)
    requires WellKeyed(atoms) && i < j < |BuiltEdges(atoms)|
    ensures KeyLe(BuiltEdges(atoms)[i].from, BuiltEdges(atoms)[j].from)
  {
    KeysAscend(atoms.Keys);
    EdgesInOrder(atoms, Keys(atoms), i, j);
  }

  /** A single atom scores one; each further step moves the average by its own confidence, which is nothing
      when an atom or a type is missing. */
  lemma ScoreAverages(atoms: Atoms, steps: Path, next: CodeAtomId)
    requires steps != []
    ensures Score(atoms, []) == Score(atoms, [next]) == 1.0
    ensures var last := steps[|steps| - 1];
            var gain := if last in atoms && next in atoms && atoms[last].returnType.Some? && |atoms[next].params| > 0
                        then TypesCompose(atoms[last].returnType.value, atoms[next].params[0].ty).Confidence()
                        else 0.0;
            Score(atoms, steps + [next]) * |steps| as real
            == (if |steps| == 1 then 0.0 else Score(atoms, steps) * (|steps| - 1) as real) + gain
  {
    hide TypesCompose;
    var more, n := steps + [next], |steps|;
    TotalOfPrefix(atoms, steps, next, n - 1);
    assert TotalScore(atoms, more, n) == TotalScore(atoms, steps, n - 1) + StepScore(atoms, more[n - 1], more[n]);
    Undivided(TotalScore(atoms, more, n), n as real);
    if n > 1 {
      Undivided(TotalScore(atoms, steps, n - 1), (n - 1) as real);
    }
  }

  lemma {:induction false} TotalOfPrefix(atoms: Atoms, steps: Path, next: CodeAtomId, n: nat)
    requires n < |steps|
    ensures TotalScore(atoms, steps + [next], n) == TotalScore(atoms, steps, n)
    decreases n
  {
    hide StepScore;
    if n > 0 {
      TotalOfPrefix(atoms, steps, next, n - 1);
    }
  }

  lemma Undivided(total: real, n: real)
    requires n > 0.0
    ensures total / n * n == total
  {
  }
}
