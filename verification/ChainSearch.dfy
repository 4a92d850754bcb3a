/** `compose_chain`: breadth-first search for call chains along type-directed edges. */
module ChainSearch {
  import opened Composition
  import opened StableSort
  import opened KeyOrder
  import opened CodeGraphs
  import opened TypeEdges

  type Path = seq<CodeAtomId>

  datatype CallChain = CallChain(steps: Path, lang: CodeLang)

  /** A nonempty path from `start` through atoms of the graph that never repeats an atom and whose
      every step feeds the next. */
  ghost predicate SimplePath(atoms: Atoms, start: CodeAtomId, path: Path) {
    && path != [] && path[0] == start
    && (forall i :: 0 <= i < |path| ==> path[i] in atoms)
    && Distinct(path)
    && forall i :: 0 <= i < |path| - 1 ==> Feeds(atoms[path[i]], atoms[path[i + 1]])
  }

  // ---------- The search, level by level ----------

  function Grow(path: Path, consumers: seq<Match>): seq<Path> {
    if consumers == [] then []
    else
      var c := consumers[|consumers| - 1].atom.id;
      Grow(path, consumers[..|consumers| - 1]) + if c in path then [] else [path + [c]]
  }

  function GrowAll(atoms: Atoms, paths: seq<Path>): seq<Path> {
    if paths == [] then []
    else GrowAll(atoms, paths[..|paths| - 1]) + Successors(atoms, paths[|paths| - 1])
  }

  function Successors(atoms: Atoms, path: Path): seq<Path> {
    if path != [] && path[|path| - 1] in atoms
    then Grow(path, Consumers(atoms, atoms[path[|path| - 1]]))
    else []
  }

  /** The paths of length `n`, in the order the search meets them. */
  function Level(atoms: Atoms, start: CodeAtomId, n: nat): seq<Path> {
    if n == 0 then [] else if n == 1 then [[start]] else GrowAll(atoms, Level(atoms, start, n - 1))
  }

  /** Everything up to length `n`, longest first. */
  function Longest(atoms: Atoms, start: CodeAtomId, n: nat): seq<Path> {
    if n == 0 then [] else Level(atoms, start, n) + Longest(atoms, start, n - 1)
  }

  /** Everything up to length `n`, in search order. */
  function Found(atoms: Atoms, start: CodeAtomId, n: nat): seq<Path> {
    if n == 0 then [] else Found(atoms, start, n - 1) + Level(atoms, start, n)
  }

  function AsChains(paths: seq<Path>, lang: CodeLang): seq<CallChain> {
    seq(|paths|, i requires 0 <= i < |paths| => CallChain(paths[i], lang))
  }

  /** The depth that bounds the search: even depth zero yields the start alone. */
  function Bound(maxDepth: nat): nat {
    if maxDepth == 0 then 1 else maxDepth
  }

  // ---------- Ordering the chains ----------

  predicate FirstStepLe(a: Path, b: Path) {
    a == [] || (b != [] && KeyLe(a[0], b[0]))
  }

  predicate LongerFirst(a: CallChain, b: CallChain) {
    |a.steps| > |b.steps| || (|a.steps| == |b.steps| && FirstStepLe(a.steps, b.steps))
  }

  lemma {:induction false} GrowShape(path: Path, consumers: seq<Match>, q: Path)
    ensures q in Grow(path, consumers)
            <==> exists i :: 0 <= i < |consumers| && consumers[i].atom.id !in path && q == path + [consumers[i].atom.id]
    decreases |consumers|
  {
    if consumers != [] {
      var n := |consumers| - 1;
      GrowShape(path, consumers[..n], q);
      if i :| 0 <= i < |consumers| && consumers[i].atom.id !in path && q == path + [consumers[i].atom.id] {
        if i < n {
          assert consumers[..n][i] == consumers[i];
        }
      }
    }
  }

  lemma {:induction false} GrowAllShape(atoms: Atoms, paths: seq<Path>, q: Path)
    ensures q in GrowAll(atoms, paths) <==> exists i :: 0 <= i < |paths| && q in Successors(atoms, paths[i])
    decreases |paths|
  {
    hide Successors;
    if paths != [] {
      var n := |paths| - 1;
      GrowAllShape(atoms, paths[..n], q);
      if i :| 0 <= i < |paths| && q in Successors(atoms, paths[i]) {
        if i < n {
          assert paths[..n][i] == paths[i];
        }
      }
    }
  }

  /** Growing a simple path gives exactly its simple one-step extensions. */
  lemma SuccessorsExact(atoms: Atoms, start: CodeAtomId, path: Path, q: Path)
    requires WellKeyed(atoms) && SimplePath(atoms, start, path)
    ensures q in Successors(atoms, path) <==> SimplePath(atoms, start, q) && |q| == |path| + 1 && q[..|path|] == path
  {
    hide Consumers, Feeds, Verdict;
    var last := path[|path| - 1];
    var consumers := Consumers(atoms, atoms[last]);
    ConsumersExact(atoms, atoms[last]);
    GrowShape(path, consumers, q);
    if q in Successors(atoms, path) {
      var i :| 0 <= i < |consumers| && consumers[i].atom.id !in path && q == path + [consumers[i].atom.id];
      assert consumers[i] in consumers;
      assert Feeds(atoms[last], atoms[consumers[i].atom.id]);
      assert SimplePath(atoms, start, q);
    }
    if SimplePath(atoms, start, q) && |q| == |path| + 1 && q[..|path|] == path {
      var c := q[|path|];
      assert q == path + [c];
      assert q[|path| - 1] == last && Feeds(atoms[last], atoms[c]);
      var m := MatchOf(atoms[c], Verdict(atoms[last], atoms[c]));
      assert IsConsumer(atoms, atoms[last], m);
      var i :| 0 <= i < |consumers| && consumers[i] == m;
      assert c !in path;
    }
  }

  lemma PrefixSimple(atoms: Atoms, start: CodeAtomId, q: Path)
    requires SimplePath(atoms, start, q) && |q| > 1
    ensures SimplePath(atoms, start, q[..|q| - 1])
  {
  }

  /** A level holds exactly the simple paths of its length. */
  lemma {:induction false} LevelExact(atoms: Atoms, start: CodeAtomId, n: nat, q: Path)
    requires WellKeyed(atoms) && start in atoms
    ensures q in Level(atoms, start, n) <==> SimplePath(atoms, start, q) && |q| == n
    decreases n
  {
    hide Successors, Feeds;
    if n == 1 {
      if |q| == 1 && q[0] == start {
        assert q == [start];
      }
    } else if n > 1 {
      var before := Level(atoms, start, n - 1);
      GrowAllShape(atoms, before, q);
      if q in Level(atoms, start, n) {
        var i :| 0 <= i < |before| && q in Successors(atoms, before[i]);
        LevelExact(atoms, start, n - 1, before[i]);
        SuccessorsExact(atoms, start, before[i], q);
      }
      if SimplePath(atoms, start, q) && |q| == n {
        var p := q[..n - 1];
        PrefixSimple(atoms, start, q);
        LevelExact(atoms, start, n - 1, p);
        var i :| 0 <= i < |before| && before[i] == p;
        SuccessorsExact(atoms, start, p, q);
      }
    }
  }

  // ---------- No path is found twice ----------

  lemma {:induction false} GrowDistinct(path: Path, consumers: seq<Match>)
    requires DistinctIds(consumers)
    ensures Distinct(Grow(path, consumers))
    decreases |consumers|
  {
    if consumers != [] {
      var n := |consumers| - 1;
      GrowDistinct(path, consumers[..n]);
      var q := path + [consumers[n].atom.id];
      GrowShape(path, consumers[..n], q);
      assert forall i :: 0 <= i < n ==> (path + [consumers[i].atom.id])[|path|] != q[|path|];
      var grown := Grow(path, consumers[..n]);
      assert forall i :: 0 <= i < |grown| ==> grown[i] in grown;
    }
  }

  lemma SuccessorsDistinct(atoms: Atoms, path: Path)
    requires WellKeyed(atoms)
    ensures Distinct(Successors(atoms, path))
  {
    if path != [] && path[|path| - 1] in atoms {
      ConsumersExact(atoms, atoms[path[|path| - 1]]);
      GrowDistinct(path, Consumers(atoms, atoms[path[|path| - 1]]));
    }
  }

  lemma {:induction false} GrowAllDistinct(atoms: Atoms, start: CodeAtomId, paths: seq<Path>, n: nat)
    requires WellKeyed(atoms) && Distinct(paths)
    requires forall p :: p in paths ==> SimplePath(atoms, start, p) && |p| == n
    ensures Distinct(GrowAll(atoms, paths))
    decreases |paths|
  {
    hide Successors, SimplePath;
    if paths != [] {
      var k := |paths| - 1;
      var init, last := paths[..k], paths[k];
      assert last in paths;
      GrowAllDistinct(atoms, start, init, n);
      SuccessorsDistinct(atoms, last);
      var old', new' := GrowAll(atoms, init), Successors(atoms, last);
      forall q | q in old' && q in new'
        ensures false
      {
        GrowAllShape(atoms, init, q);
        var i :| 0 <= i < |init| && q in Successors(atoms, init[i]);
        assert init[i] == paths[i] && paths[i] in paths;
        SuccessorsExact(atoms, start, init[i], q);
        SuccessorsExact(atoms, start, last, q);
      }
      forall i, j | 0 <= i < |old'| && 0 <= j < |new'|
        ensures old'[i] != new'[j]
      {
        assert old'[i] in old' && new'[j] in new';
      }
      DistinctConcat(old', new');
    }
  }

  lemma DistinctConcat<T>(s: seq<T>, t: seq<T>)
    requires Distinct(s) && Distinct(t)
    requires forall i, j :: 0 <= i < |s| && 0 <= j < |t| ==> s[i] != t[j]
    ensures Distinct(s + t)
  {
  }

  lemma {:induction false} LevelDistinct(atoms: Atoms, start: CodeAtomId, n: nat)
    requires WellKeyed(atoms) && start in atoms
    ensures Distinct(Level(atoms, start, n))
    decreases n
  {
    hide SimplePath, Successors;
    if n > 1 {
      LevelDistinct(atoms, start, n - 1);
      forall p | p in Level(atoms, start, n - 1)
        ensures SimplePath(atoms, start, p) && |p| == n - 1
      {
        LevelExact(atoms, start, n - 1, p);
      }
      GrowAllDistinct(atoms, start, Level(atoms, start, n - 1), n - 1);
    }
  }

  ghost predicate NonIncreasing(paths: seq<Path>) {
    forall i, j :: 0 <= i < j < |paths| ==> |paths[i]| >= |paths[j]|
  }

  /** Soundness and completeness of the search: the result holds exactly the simple paths up to the
      bound, each once, longest first. */
  lemma {:induction false} SearchExact(atoms: Atoms, start: CodeAtomId, n: nat)
    requires WellKeyed(atoms) && start in atoms
    ensures forall q :: q in Longest(atoms, start, n) <==> SimplePath(atoms, start, q) && |q| <= n
    ensures Distinct(Longest(atoms, start, n))
    ensures NonIncreasing(Longest(atoms, start, n))
    decreases n
  {
    hide Level, Feeds;
    if n > 0 {
      SearchExact(atoms, start, n - 1);
      LevelDistinct(atoms, start, n);
      var level, rest := Level(atoms, start, n), Longest(atoms, start, n - 1);
      forall q
        ensures q in level <==> SimplePath(atoms, start, q) && |q| == n
      {
        LevelExact(atoms, start, n, q);
      }
      forall i | 0 <= i < |level|
        ensures |level[i]| == n
      {
        assert level[i] in level;
      }
      forall i | 0 <= i < |rest|
        ensures |rest[i]| < n
      {
        assert rest[i] in rest;
      }
      DistinctConcat(level, rest);
    }
  }

  /** Every path the search returns stays within one language. */
  lemma {:induction false} PathKeepsLanguage(atoms: Atoms, start: CodeAtomId, path: Path, i: nat)
    requires SimplePath(atoms, start, path) && i < |path|
    ensures atoms[path[i]].lang == atoms[start].lang
    decreases i
  {
    if i > 0 {
      PathKeepsLanguage(atoms, start, path, i - 1);
      assert Feeds(atoms[path[i - 1]], atoms[path[i - 1 + 1]]);
    }
  }

  lemma {:induction false} DistinctFits(s: seq<CodeAtomId>, among: set<CodeAtomId>)
    requires Distinct(s) && forall i :: 0 <= i < |s| ==> s[i] in among
    ensures |s| <= |among|
    decreases |s|
  {
    if s != [] {
      var n := |s| - 1;
      forall i | 0 <= i < n
        ensures s[..n][i] in among - {s[n]}
      {
        assert s[i] != s[n];
      }
      DistinctFits(s[..n], among - {s[n]});
    }
  }

  /** Searching deeper than there are atoms finds nothing new. */
  lemma {:induction false} DepthSaturates(atoms: Atoms, start: CodeAtomId, n: nat)
    requires WellKeyed(atoms) && start in atoms && n >= |atoms|
    ensures Longest(atoms, start, n) == Longest(atoms, start, |atoms|)
    decreases n
  {
    hide GrowAll, Feeds;
    if n > |atoms| {
      var level := Level(atoms, start, n);
      if level != [] {
        assert level[0] in level;
        LevelExact(atoms, start, n, level[0]);
        DistinctFits(level[0], atoms.Keys);
      }
      DepthSaturates(atoms, start, n - 1);
    }
  }

  // ---------- The final sort ----------

  lemma AsChainsConcat(a: seq<Path>, b: seq<Path>, lang: CodeLang)
    ensures AsChains(a + b, lang) == AsChains(a, lang) + AsChains(b, lang)
  {
  }

  lemma {:induction false} LevelLengths(atoms: Atoms, start: CodeAtomId, n: nat, q: Path)
    requires q in Level(atoms, start, n)
    ensures |q| == n && q[0] == start
    decreases n
  {
    hide Consumers;
    if n > 1 {
      var before := Level(atoms, start, n - 1);
      GrowAllShape(atoms, before, q);
      var i :| 0 <= i < |before| && q in Successors(atoms, before[i]);
      LevelLengths(atoms, start, n - 1, before[i]);
      GrowShape(before[i], Consumers(atoms, atoms[before[i][|before[i]| - 1]]), q);
    }
  }

  lemma {:induction false} FoundLengths(atoms: Atoms, start: CodeAtomId, n: nat, q: Path)
    requires q in Found(atoms, start, n)
    ensures |q| <= n
    decreases n
  {
    if n > 0 && q in Level(atoms, start, n) {
      LevelLengths(atoms, start, n, q);
    } else if n > 0 {
      FoundLengths(atoms, start, n - 1, q);
    }
  }

  /** Sorting by length turns search order into longest first and keeps each level's order. */
  lemma {:induction false} SortFound(atoms: Atoms, start: CodeAtomId, n: nat, lang: CodeLang)
    ensures Sort(AsChains(Found(atoms, start, n), lang), LongerFirst) == AsChains(Longest(atoms, start, n), lang)
    decreases n
  {
    hide Level;
    if n > 0 {
      SortFound(atoms, start, n - 1, lang);
      var seen, level := Found(atoms, start, n - 1), Level(atoms, start, n);
      AsChainsConcat(seen, level, lang);
      AsChainsConcat(level, Longest(atoms, start, n - 1), lang);
      var s, block := AsChains(seen, lang), AsChains(level, lang);
      forall x | x in block
        ensures |x.steps| == n && x.steps[0] == start
      {
        assert x.steps in level;
        LevelLengths(atoms, start, n, x.steps);
      }
      forall x | x in s
        ensures |x.steps| < n
      {
        assert x.steps in seen;
        FoundLengths(atoms, start, n - 1, x.steps);
      }
      KeyLeTotal(start, start);
      SortFrontBlock(s, block, LongerFirst);
    }
  }

  // ---------- The search itself ----------

  /** One queued path: its last atom, the path, the atoms on it, and the product of confidences. */
  datatype Entry = Entry(current: CodeAtomId, path: Path, visited: set<CodeAtomId>, confidence: real)
  {
    ghost predicate Stands(p: Path) {
      && path == p && p != [] && current == p[|p| - 1]
      && forall k :: k in visited <==> k in p
    }
  }

  ghost predicate Queued(queue: seq<Entry>, paths: seq<Path>) {
    |queue| == |paths| && forall k :: 0 <= k < |queue| ==> queue[k].Stands(paths[k])
  }

  lemma {:induction false} EmptyLevelsStayEmpty(atoms: Atoms, start: CodeAtomId, n: nat, m: nat)
    requires 0 < n <= m && Level(atoms, start, n) == []
    ensures Found(atoms, start, m) == Found(atoms, start, n) && Level(atoms, start, m) == []
    decreases m
  {
    hide Successors;
    if n < m {
      EmptyLevelsStayEmpty(atoms, start, n, m - 1);
      LevelFromPrevious(atoms, start, m - 1);
    }
  }

  /** Queue the extensions of one path, best consumer first. */
  method Enqueue(queue: seq<Entry>, entry: Entry, consumers: seq<Match>, ghost pending: seq<Path>)
    returns (longer: seq<Entry>)
    requires Queued(queue, pending) && entry.Stands(entry.path)
    ensures Queued(longer, pending + Grow(entry.path, consumers))
  {
    longer := queue;
    for j := 0 to |consumers|
      invariant Queued(longer, pending + Grow(entry.path, consumers[..j]))
    {
      assert consumers[..j + 1][..j] == consumers[..j];
      var c := consumers[j].atom.id;
      if c in entry.visited {
        continue;
      }
      var path := entry.path + [c];
      longer := longer + [Entry(c, path, entry.visited + {c}, entry.confidence * consumers[j].confidence)];
      assert longer[|longer| - 1].Stands(path);
    }
    assert consumers[..|consumers|] == consumers;
  }

  /** What is queued once `i` paths of level `n` have been expanded. */
  ghost function Pending(atoms: Atoms, start: CodeAtomId, bound: nat, n: nat, i: nat): seq<Path>
    requires i <= |Level(atoms, start, n)|
  {
    var level := Level(atoms, start, n);
    level[i..] + if n < bound then GrowAll(atoms, level[..i]) else []
  }

  /** What has been recorded by then. */
  ghost function Recorded(atoms: Atoms, start: CodeAtomId, n: nat, i: nat): seq<Path>
    requires 0 < n && i <= |Level(atoms, start, n)|
  {
    Found(atoms, start, n - 1) + Level(atoms, start, n)[..i]
  }

  lemma NextLevel(atoms: Atoms, start: CodeAtomId, bound: nat, n: nat)
    requires 0 < n <= bound
    ensures var full := |Level(atoms, start, n)|;
            if n < bound
            then && Pending(atoms, start, bound, n, full) == Pending(atoms, start, bound, n + 1, 0)
                 && Recorded(atoms, start, n, full) == Recorded(atoms, start, n + 1, 0)
            else Pending(atoms, start, bound, n, full) == []
    ensures n < bound ==> Pending(atoms, start, bound, n + 1, 0) == Level(atoms, start, n + 1)
  {
    var level := Level(atoms, start, n);
    assert level[..|level|] == level && level[|level|..] == [];
    if n < bound {
      var next := Level(atoms, start, n + 1);
      assert next == GrowAll(atoms, level);
      assert next[..0] == [] && next[0..] == next && GrowAll(atoms, []) == [];
    }
  }

  lemma TakeOne(atoms: Atoms, start: CodeAtomId, bound: nat, n: nat, i: nat)
    requires 0 < n <= bound && i < |Level(atoms, start, n)|
    ensures var level := Level(atoms, start, n);
            && Recorded(atoms, start, n, i + 1) == Recorded(atoms, start, n, i) + [level[i]]
            && Pending(atoms, start, bound, n, i) != []
            && Pending(atoms, start, bound, n, i)[0] == level[i]
            && Pending(atoms, start, bound, n, i + 1)
               == Pending(atoms, start, bound, n, i)[1..] + if n < bound then Successors(atoms, level[i]) else []
  {
    hide Level, Found, Successors;
    var level := Level(atoms, start, n);
    assert level[i..] == [level[i]] + level[i + 1..];
    assert level[..i + 1] == level[..i] + [level[i]];
    GrowAllSnoc(atoms, level[..i], level[i]);
    if n < bound {
      assert Pending(atoms, start, bound, n, i)[1..] == level[i + 1..] + GrowAll(atoms, level[..i]);
    } else {
      assert Pending(atoms, start, bound, n, i)[1..] == level[i + 1..];
    }
  }

  lemma GrowAllSnoc(atoms: Atoms, paths: seq<Path>, p: Path)
    ensures GrowAll(atoms, paths + [p]) == GrowAll(atoms, paths) + Successors(atoms, p)
  {
    hide Successors;
    assert (paths + [p])[..|paths|] == paths;
  }

  /** All call chains from `start`, longest first; nothing when `start` is not registered. */
  method ComposeChain(graph: CodeGraph, start: CodeAtomId, maxDepth: nat) returns (chains: seq<CallChain>)
    ensures chains == if start in graph.atoms
                      then AsChains(Longest(graph.atoms, start, Bound(maxDepth)), graph.atoms[start].lang)
                      else []
    ensures WellKeyed(graph.atoms) ==> AllWalks(graph.atoms, start, maxDepth, chains)
  {
    hide AllWalks, Level, Found, Longest, Consumers, Sort, Pending, Recorded, GrowAll, Grow, LongerFirst;
    chains := [];
    if start !in graph.atoms {
      NoChainsNoWalks(graph.atoms, start, maxDepth);
      return;
    }
    var lang := graph.atoms[start].lang;
    var queue := [Entry(start, [start], {start}, 1.0)];
    ghost var atoms, bound := graph.atoms, Bound(maxDepth);
    ghost var n, i := 1, 0;
    SearchStarts(atoms, start, bound);
    assert queue[0].Stands([start]);
    while queue != []
      invariant 1 <= n <= bound && 0 <= i <= |Level(atoms, start, n)|
      invariant Queued(queue, Pending(atoms, start, bound, n, i))
      invariant chains == AsChains(Recorded(atoms, start, n, i), lang)
      decreases bound - n, |Level(atoms, start, n)| - i
    {
      if i == |Level(atoms, start, n)| {
        NextLevel(atoms, start, bound, n);
        n, i := n + 1, 0;
      }
      ghost var path := Level(atoms, start, n)[i];
      TakeOne(atoms, start, bound, n, i);
      ghost var pending := Pending(atoms, start, bound, n, i);
      var entry := queue[0];
      queue := queue[1..];
      assert entry.Stands(path) && Queued(queue, pending[1..]);
      LevelLengths(atoms, start, n, path);
      AsChainsConcat(Recorded(atoms, start, n, i), [path], lang);
      chains := chains + [CallChain(entry.path, lang)];
      i := i + 1;
      if |entry.path| >= maxDepth || entry.current !in graph.atoms {
        assert Pending(atoms, start, bound, n, i) == pending[1..];
        continue;
      }
      var consumers := FindConsumers(graph, graph.atoms[entry.current]);
      queue := Enqueue(queue, entry, consumers, pending[1..]);
    }
    SearchEnds(atoms, start, bound, n, i);
    SortFound(atoms, start, bound, lang);
    chains := Sort(chains, LongerFirst);
    if WellKeyed(atoms) {
      ChainsAreWalks(atoms, start, maxDepth);
    }
  }

  lemma SearchStarts(atoms: Atoms, start: CodeAtomId, bound: nat)
    requires 0 < bound
    ensures Level(atoms, start, 1) == [[start]]
    ensures Pending(atoms, start, bound, 1, 0) == [[start]]
    ensures Recorded(atoms, start, 1, 0) == []
  {
    var level := Level(atoms, start, 1);
    assert level[..0] == [] && GrowAll(atoms, []) == [];
  }

  /** When nothing is pending, everything up to the bound has been recorded. */
  lemma SearchEnds(atoms: Atoms, start: CodeAtomId, bound: nat, n: nat, i: nat)
    requires 0 < n <= bound && i <= |Level(atoms, start, n)|
    requires Pending(atoms, start, bound, n, i) == []
    ensures Recorded(atoms, start, n, i) == Found(atoms, start, bound)
  {
    hide Successors, Level;
    var level := Level(atoms, start, n);
    assert |level[i..]| == 0;
    assert level[..i] == level;
    assert Recorded(atoms, start, n, i) == Found(atoms, start, n);
    if n < bound {
      LevelFromPrevious(atoms, start, n);
      EmptyLevelsStayEmpty(atoms, start, n + 1, bound);
    }
  }

  lemma LevelFromPrevious(atoms: Atoms, start: CodeAtomId, n: nat)
    requires 0 < n
    ensures Level(atoms, start, n + 1) == GrowAll(atoms, Level(atoms, start, n))
  {
    hide GrowAll;
  }

  // ---------- The result, chain by chain ----------

  /** The output of `p` composes with the first parameter of `c`, within one language. */
  ghost predicate Passes(p: CodeAtom, c: CodeAtom) {
    && p.lang == c.lang && p.returnType.Some? && |c.params| > 0
    && TypesCompose(p.returnType.value, c.params[0].ty) != NoMatch
  }

  /** What a path of the search is, read off the atoms: it begins at the start, repeats no atom, and each step
      passes an output on. */
  ghost predicate Walks(atoms: Atoms, start: CodeAtomId, path: Path) {
    && |path| > 0 && path[0] == start
    && (forall i :: 0 <= i < |path| ==> path[i] in atoms)
    && (forall i, j :: 0 <= i < j < |path| ==> path[i] != path[j])
    && forall i :: 0 <= i < |path| - 1 ==> Passes(atoms[path[i]], atoms[path[i + 1]])
  }

  lemma FeedsMeans(p: CodeAtom, c: CodeAtom)
    ensures Feeds(p, c) <==> p.id != c.id && Passes(p, c)
  {
  }

  lemma WalksIsSimple(atoms: Atoms, start: CodeAtomId, path: Path)
    requires WellKeyed(atoms)
    ensures Walks(atoms, start, path) <==> SimplePath(atoms, start, path)
  {
    hide Feeds, Passes;
    if forall i :: 0 <= i < |path| ==> path[i] in atoms {
      forall i | 0 <= i < |path| - 1
        ensures Feeds(atoms[path[i]], atoms[path[i + 1]])
                <==> path[i] != path[i + 1] && Passes(atoms[path[i]], atoms[path[i + 1]])
      {
        FeedsMeans(atoms[path[i]], atoms[path[i + 1]]);
      }
    }
  }

  /** The chains are exactly the walks of at most `max(1, maxDepth)` atoms, each in the language of its start,
      each once, the longer ones first. */
  ghost predicate AllWalks(atoms: Atoms, start: CodeAtomId, maxDepth: nat, chains: seq<CallChain>) {
    && (forall chain :: chain in chains
          <==> start in atoms && chain.lang == atoms[start].lang && Walks(atoms, start, chain.steps)
               && (|chain.steps| == 1 || |chain.steps| <= maxDepth))
    && (forall i, j :: 0 <= i < j < |chains| ==> chains[i] != chains[j] && |chains[i].steps| >= |chains[j].steps|)
  }

  lemma NoChainsNoWalks(atoms: Atoms, start: CodeAtomId, maxDepth: nat)
    requires start !in atoms
    ensures AllWalks(atoms, start, maxDepth, [])
  {
  }

  lemma ChainsAreWalks(atoms: Atoms, start: CodeAtomId, maxDepth: nat)
    requires WellKeyed(atoms) && start in atoms
    ensures AllWalks(atoms, start, maxDepth, AsChains(Longest(atoms, start, Bound(maxDepth)), atoms[start].lang))
  {
    hide Longest, Walks;
    var paths := Longest(atoms, start, Bound(maxDepth));
    var chains := AsChains(paths, atoms[start].lang);
    SearchExact(atoms, start, Bound(maxDepth));
    forall chain
      ensures chain in chains
              <==> chain.lang == atoms[start].lang && Walks(atoms, start, chain.steps)
                   && (|chain.steps| == 1 || |chain.steps| <= maxDepth)
    {
      WalksIsSimple(atoms, start, chain.steps);
      if chain in chains {
        assert chain.steps in paths;
      }
      if chain.steps in paths && chain.lang == atoms[start].lang {
        var i :| 0 <= i < |paths| && paths[i] == chain.steps;
        assert chains[i] == chain;
      }
    }
  }
}
