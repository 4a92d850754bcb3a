/** The morphology runtime: compact indexes built in one pass, and the lookups that read them. */
module Morphology {
  import opened StableSort
  import opened Lexicon
  import opened Loading
  import Types

  datatype BuildResult = Built | BuildFailed(error: LoadError)

  datatype ResolveResult =
    | Entry(entry: LexemeEntry) | UnknownSurface(surface: string) | AmbiguousSurface(surfaces: string)

  /** `index` holds exactly `row` under `k`; empty rows are not stored. */
  ghost predicate Holds(index: map<string, seq<IndexedCandidate>>, k: string, row: seq<IndexedCandidate>) {
    (k in index <==> row != []) && (k in index ==> index[k] == row)
  }

  /** The lemma tables describe `lexicon`. */
  ghost predicate Describe(
    lower: Lower, lexicon: seq<LexemeEntry>,
    lexemes: map<string, LexemeEntry>, lemmaIndex: map<string, nat>, lemmaKeys: seq<string>)
  {
    && DistinctLemmas(lower, lexicon)
    && |lemmaKeys| == |lexicon|
    && (forall i :: 0 <= i < |lexicon| ==> lemmaKeys[i] == lexicon[i].lemmaForm)
    && (forall i :: 0 <= i < |lexicon|
                    ==> lexicon[i].lemmaForm in lexemes && lexemes[lexicon[i].lemmaForm] == lexicon[i])
    && (forall w :: w in lemmaIndex <==> Known(lower, lexicon, w))
    && (forall w :: w in lemmaIndex
                    ==> lemmaIndex[w] < |lexicon| && lower(lexicon[lemmaIndex[w]].lemmaForm) == w)
  }

  lemma DescribeGrows(
      lower: Lower, lexicon: seq<LexemeEntry>,
      lexemes: map<string, LexemeEntry>, lemmaIndex: map<string, nat>, lemmaKeys: seq<string>, e: LexemeEntry)
    requires Describe(lower, lexicon, lexemes, lemmaIndex, lemmaKeys)
    requires !Known(lower, lexicon, lower(e.lemmaForm))
    ensures Describe(
              lower, lexicon + [e], lexemes[e.lemmaForm := e],
              lemmaIndex[lower(e.lemmaForm) := |lemmaKeys|], lemmaKeys + [e.lemmaForm])
  {
    hide Known;
    KnownGrows(lower, lexicon, e);
    forall i | 0 <= i < |lexicon|
      ensures lower(lexicon[i].lemmaForm) != lower(e.lemmaForm)
    {
      KnownMember(lower, lexicon, i);
    }
  }

  lemma KnownMember(lower: Lower, lexicon: seq<LexemeEntry>, i: nat)
    requires i < |lexicon|
    ensures Known(lower, lexicon, lower(lexicon[i].lemmaForm))
  {
  }

  class MorphologyRuntime {
    const lower: Lower
    var lexemes: map<string, LexemeEntry>
    var surfaceIndex: map<string, seq<IndexedCandidate>>
    var lemmaIndex: map<string, nat>
    var lemmaKeys: seq<string>
    ghost var lexicon: seq<LexemeEntry>

    ghost predicate Canonical()
      reads this
    {
      Describe(lower, lexicon, lexemes, lemmaIndex, lemmaKeys)
    }

    /** A built runtime: the tables describe `lexicon` and every row is the sorted row. */
    ghost predicate Valid()
      reads this
    {
      Canonical() && forall k :: Holds(surfaceIndex, k, SortedRow(lower, lexicon, k))
    }

    constructor (lower: Lower)
      ensures Canonical() && lexicon == [] && surfaceIndex == map[] && this.lower == lower
    {
      this.lower := lower;
      lexemes, surfaceIndex, lemmaIndex, lemmaKeys, lexicon := map[], map[], map[], [], [];
    }

    /** Push one form, unless it is empty, under its lower-cased surface. */
    method PushForm(entry: LexemeEntry, lexemeIndex: nat, cn: CaseNumber, ghost done: seq<CaseNumber>)
      modifies this`surfaceIndex
      requires lexemeIndex == |lexicon|
      requires forall k :: Holds(surfaceIndex, k, RowSoFar(lower, lexicon, entry, done, k))
      ensures forall k :: Holds(surfaceIndex, k, RowSoFar(lower, lexicon, entry, done + [cn], k))
    {
      hide RowSoFar, Shows;
      forall k
        ensures RowSoFar(lower, lexicon, entry, done + [cn], k)
                == RowSoFar(lower, lexicon, entry, done, k)
                   + if Shows(lower, entry, cn, k) then [IndexedCandidate(lexemeIndex, cn, entry.quality)] else []
      {
        RowSoFarGrows(lower, lexicon, entry, done, cn, k);
      }
      ShowsOnlyLowered(lower, entry, cn);
      var form := entry.forms.Get(cn);
      if form == "" {
        return;
      }
      var surfaceLower := lower(form);
      var row := if surfaceLower in surfaceIndex then surfaceIndex[surfaceLower] else [];
      surfaceIndex := surfaceIndex[surfaceLower := row + [IndexedCandidate(lexemeIndex, cn, entry.quality)]];
    }

    /** Push one lexeme's forms under their lower-cased surfaces. */
    method IndexForms(entry: LexemeEntry, lexemeIndex: nat)
      modifies this`surfaceIndex
      requires lexemeIndex == |lexicon|
      requires forall k :: Holds(surfaceIndex, k, RawRow(lower, lexicon, k))
      ensures forall k :: Holds(surfaceIndex, k, RawRow(lower, lexicon + [entry], k))
    {
      hide RawRow, RowSoFar, Holds;
      forall k ensures RowSoFar(lower, lexicon, entry, [], k) == RawRow(lower, lexicon, k) {
        RowSoFarComplete(lower, lexicon, entry, k);
      }
      assert FORM_ORDER[..0] == [];
      for j := 0 to |FORM_ORDER|
        invariant forall k :: Holds(surfaceIndex, k, RowSoFar(lower, lexicon, entry, FORM_ORDER[..j], k))
      {
        PushForm(entry, lexemeIndex, FORM_ORDER[j], FORM_ORDER[..j]);
        assert FORM_ORDER[..j + 1] == FORM_ORDER[..j] + [FORM_ORDER[j]];
      }
      assert FORM_ORDER[..|FORM_ORDER|] == FORM_ORDER;
      forall k ensures Holds(surfaceIndex, k, RawRow(lower, lexicon + [entry], k)) {
        RowSoFarComplete(lower, lexicon, entry, k);
      }
    }

    /** Take in one entry that the duplicate rule lets through. */
    method Register(entry: LexemeEntry)
      requires Canonical() && !Known(lower, lexicon, lower(entry.lemmaForm))
      requires forall k :: Holds(surfaceIndex, k, RawRow(lower, lexicon, k))
      modifies this
      ensures Canonical() && lexicon == old(lexicon) + [entry]
      ensures forall k :: Holds(surfaceIndex, k, RawRow(lower, lexicon, k))
    {
      hide RawRow, Known, DistinctLemmas;
      IndexForms(entry, |lemmaKeys|);
      var lexemeIndex := |lemmaKeys|;
      var lemmaLower := lower(entry.lemmaForm);
      DescribeGrows(lower, lexicon, lexemes, lemmaIndex, lemmaKeys, entry);
      lexemes := lexemes[entry.lemmaForm := entry];
      lemmaKeys := lemmaKeys + [entry.lemmaForm];
      lemmaIndex := lemmaIndex[lemmaLower := lexemeIndex];
      lexicon := lexicon + [entry];
    }

    /** Index a lexeme list; on failure the runtime is not used further. */
    method BuildIndexes(entries: seq<LexemeEntry>) returns (result: BuildResult)
      requires Canonical() && lexicon == [] && surfaceIndex == map[]
      modifies this
      ensures Load(lower, entries).Loaded? ==> result == Built && Valid() && lexicon == Load(lower, entries).lexicon
      ensures Load(lower, entries).Failed? ==> result == BuildFailed(Load(lower, entries).error)
    {
      hide RawRow, SortedRow, Load, Accept;
      NothingLoaded(lower);
      for i := 0 to |entries|
        invariant Canonical()
        invariant Load(lower, entries[..i]) == Loaded(lexicon)
        invariant forall k :: Holds(surfaceIndex, k, RawRow(lower, lexicon, k))
      {
        var entry := entries[i];
        LoadStep(lower, entries, i, lexicon);
        if entry.lemmaForm == "" {
          return BuildFailed(EmptyLemma);
        }
        var lemmaLower := lower(entry.lemmaForm);
        if lemmaLower in lemmaIndex {
          var existing := lexemes[lemmaKeys[lemmaIndex[lemmaLower]]];
          KnownEntry(lower, lexicon, lemmaIndex[lemmaLower], entry);
          if existing != entry {
            return BuildFailed(DuplicateLemma(lemmaLower));
          }
          continue;
        }
        Register(entry);
      }
      assert entries[..|entries|] == entries;
      SortRows();
      return Built;
    }

    // ---------- Lookups ----------

    function Row(k: string): seq<IndexedCandidate>
      reads this
    {
      if k in surfaceIndex then surfaceIndex[k] else []
    }

    /** The canonical entry behind a compact candidate; the two map accesses never fail. */
    function EntryFor(c: IndexedCandidate): (e: LexemeEntry)
      requires Canonical() && c.lexemeIndex < |lexicon|
      reads this
      ensures e == lexicon[c.lexemeIndex]
    {
      lexemes[lemmaKeys[c.lexemeIndex]]
    }

    /** The lexemes that share the head's tier and quality. */
    function TiedLexemes(row: seq<IndexedCandidate>): (tied: set<nat>)
      requires Canonical() && InRange(lexicon, row) && row != []
      reads this
      ensures tied == TopIndices(Ranks(lexicon), row)
    {
      TiersByRank(lexicon, row);
      set c | c in row && EntryFor(c).tier == EntryFor(row[0]).tier && c.confidence == row[0].confidence
        :: c.lexemeIndex
    }

    function Materialize(row: seq<IndexedCandidate>): (candidates: seq<LexemeCandidate>)
      requires Canonical() && InRange(lexicon, row)
      reads this
      ensures candidates == Map(Materialized(lexicon), row)
    {
      if row == [] then []
      else
        assert row[0] in row;
        var e := EntryFor(row[0]);
        [LexemeCandidate(e.forms.Get(row[0].caseNumber), e, row[0].caseNumber, row[0].confidence)]
        + Materialize(row[1..])
    }

    /** Several lexemes are tied at the top of the row. */
    predicate Contested(row: seq<IndexedCandidate>)
      requires Canonical() && InRange(lexicon, row)
      reads this
    {
      |row| > 1 && |TiedLexemes(row)| > 1
    }

    /** The index answers exactly as a scan of every form of every lexeme would. */
    function Lemmatize(surface: string): (answer: MorphologyLookup)
      requires Valid()
      reads this
      ensures CorrectAnswer(lower, lexicon, lower(surface), answer)
    {
      hide SortedRow, Ranks, TopIndices, CorrectAnswer, OnlyBest, TwoBest;
      var k := lower(surface);
      var row := Row(k);
      assert Holds(surfaceIndex, k, SortedRow(lower, lexicon, k));
      RowDecides(lower, lexicon, k);
      AnswersCorrect(lower, lexicon, k);
      if row == [] then Unknown
      else if Contested(row) then Ambiguous(Materialize(row))
      else Resolved(Resolution(EntryFor(row[0]), row[0].caseNumber))
    }

    /** The same three-way decision, answering with the whole entry. */
    function ResolveSurface(surface: string): (result: ResolveResult)
      requires Valid()
      reads this
      ensures match Lemmatize(surface)
              case Unknown => result == UnknownSurface(surface)
              case Ambiguous(candidates) =>
                result == AmbiguousSurface(Types.Join(Map((c: LexemeCandidate) => c.surface, candidates), ", "))
              case Resolved(r) => result.Entry? && OnlyBest(lower, lexicon, result.entry, lower(surface))
                                  && result.entry.lemmaForm == r.lemmaForm
    {
      hide SortedRow, Hit, Shows, Ranks, Scan, FormsShowing, TopIndices, Materialized;
      var k := lower(surface);
      var row := Row(k);
      assert Holds(surfaceIndex, k, SortedRow(lower, lexicon, k));
      RowDecides(lower, lexicon, k);
      if row == [] then UnknownSurface(surface)
      else if Contested(row)
      then AmbiguousSurface(Types.Join(Map((c: LexemeCandidate) => c.surface, Materialize(row)), ", "))
      else Entry(EntryFor(row[0]))
    }

    /** The contested keys of the index. */
    function ContestedSurfaces(): (keys: set<string>)
      requires Valid()
      reads this
      ensures forall k :: k in keys <==> TwoBest(lower, lexicon, k)
    {
      hide SortedRow, Best, Ranks, TopIndices;
      assert forall k :: k in surfaceIndex ==> surfaceIndex[k] != [] && InRange(lexicon, surfaceIndex[k]) by {
        forall k | k in surfaceIndex
          ensures surfaceIndex[k] != [] && InRange(lexicon, surfaceIndex[k])
        {
          assert Holds(surfaceIndex, k, SortedRow(lower, lexicon, k));
          RowDecides(lower, lexicon, k);
        }
      }
      var keys := set k | k in surfaceIndex && |TiedLexemes(surfaceIndex[k])| > 1;
      assert forall k :: k in keys <==> TwoBest(lower, lexicon, k) by {
        forall k
          ensures k in keys <==> TwoBest(lower, lexicon, k)
        {
          assert Holds(surfaceIndex, k, SortedRow(lower, lexicon, k));
          RowDecides(lower, lexicon, k);
        }
      }
      keys
    }

    /** How many surfaces have several equally trusted best lexemes. */
    function AmbiguousSurfaceCount(): nat
      requires Valid()
      reads this
    {
      |ContestedSurfaces()|
    }

    /** With an idempotent lower-casing these are exactly the lower-cased surfaces that `Lemmatize`
        finds ambiguous. */
    lemma ContestedAreAmbiguous(surface: string)
      requires Valid() && lower(lower(surface)) == lower(surface)
      ensures lower(surface) in ContestedSurfaces() <==> Lemmatize(surface).Ambiguous?
    {
      hide SortedRow, Hit, Shows, Ranks, Scan, FormsShowing, Lemmatize, ContestedSurfaces;
    }

    /** Sort one row in place. */
    method SortRow(k: string, ranks: seq<nat>, ghost todo: set<string>)
      requires ranks == Ranks(lexicon) && k in todo && todo <= surfaceIndex.Keys
      requires forall w :: Holds(surfaceIndex, w, RowWhile(lower, lexicon, todo, w))
      modifies this`surfaceIndex
      ensures surfaceIndex.Keys == old(surfaceIndex.Keys)
      ensures forall w :: Holds(surfaceIndex, w, RowWhile(lower, lexicon, todo - {k}, w))
    {
      hide RawRow, Ranks;
      ghost var before := surfaceIndex;
      assert Holds(before, k, RowWhile(lower, lexicon, todo, k));
      SortPermutes(surfaceIndex[k], MoreTrusted(ranks));
      surfaceIndex := surfaceIndex[k := Sort(surfaceIndex[k], MoreTrusted(ranks))];
      forall w
        ensures Holds(surfaceIndex, w, RowWhile(lower, lexicon, todo - {k}, w))
      {
        assert Holds(before, w, RowWhile(lower, lexicon, todo, w));
      }
    }

    /** Sort every row in place; the order in which rows are visited does not matter. */
    method SortRows()
      requires Canonical() && forall k :: Holds(surfaceIndex, k, RawRow(lower, lexicon, k))
      modifies this`surfaceIndex
      ensures Valid()
    {
      hide RawRow, RowWhile, Holds, SortedRow;
      var table, keys := lexemes, lemmaKeys;
      var ranks := seq(|keys|, i requires 0 <= i < |keys| && keys[i] in table => table[keys[i]].tier.TrustRank());
      assert ranks == Ranks(lexicon);
      var todo := surfaceIndex.Keys;
      forall k ensures Holds(surfaceIndex, k, RowWhile(lower, lexicon, todo, k)) {
        NothingSorted(lower, lexicon, surfaceIndex, k);
      }
      while todo != {}
        invariant todo <= surfaceIndex.Keys
        invariant forall k :: Holds(surfaceIndex, k, RowWhile(lower, lexicon, todo, k))
        decreases todo
      {
        var k :| k in todo;
        SortRow(k, ranks, todo);
        todo := todo - {k};
      }
      forall k ensures Holds(surfaceIndex, k, SortedRow(lower, lexicon, k)) {
        AllSorted(lower, lexicon, k);
      }
    }
  }

  lemma NothingSorted(lower: Lower, lexicon: seq<LexemeEntry>, index: map<string, seq<IndexedCandidate>>, k: string)
    requires Holds(index, k, RawRow(lower, lexicon, k))
    ensures Holds(index, k, RowWhile(lower, lexicon, index.Keys, k))
  {
    hide RawRow;
  }

  lemma AllSorted(lower: Lower, lexicon: seq<LexemeEntry>, k: string)
    ensures RowWhile(lower, lexicon, {}, k) == SortedRow(lower, lexicon, k)
  {
  }

  /** Two different lexemes are equally good for `k`. */
  ghost predicate TwoBest(lower: Lower, lexicon: seq<LexemeEntry>, k: string) {
    exists a, b :: a != b && Best(lower, lexicon, a, k) && Best(lower, lexicon, b, k)
  }

  lemma TiersByRank(lexicon: seq<LexemeEntry>, row: seq<IndexedCandidate>)
    requires InRange(lexicon, row) && row != []
    ensures TopIndices(Ranks(lexicon), row)
            == set c | && c in row
                       && lexicon[c.lexemeIndex].tier == lexicon[row[0].lexemeIndex].tier
                       && c.confidence == row[0].confidence :: c.lexemeIndex
  {
    assert row[0] in row;
    forall c | c in row
      ensures TopOf(Ranks(lexicon), row[0])(c)
              <==> && lexicon[c.lexemeIndex].tier == lexicon[row[0].lexemeIndex].tier
                   && c.confidence == row[0].confidence
    {
    }
  }

  /** Everything a sorted row decides about `k`. */
  lemma RowDecides(lower: Lower, lexicon: seq<LexemeEntry>, k: string)
    requires DistinctLemmas(lower, lexicon)
    ensures var row := SortedRow(lower, lexicon, k);
            && InRange(lexicon, row)
            && (row == [] <==> forall e :: e in lexicon ==> !Hit(lower, e, k))
            && multiset(Map(Materialized(lexicon), row)) == multiset(Scan(lower, lexicon, k))
            && (TwoBest(lower, lexicon, k) <==> row != [] && |TopIndices(Ranks(lexicon), row)| > 1)
            && (row != [] && !TwoBest(lower, lexicon, k)
                ==> && OnlyBest(lower, lexicon, lexicon[row[0].lexemeIndex], k)
                    && FormsShowing(lower, lexicon[row[0].lexemeIndex], k) != []
                    && row[0].caseNumber == FormsShowing(lower, lexicon[row[0].lexemeIndex], k)[0])
            && (|row| == 1 ==> |TopIndices(Ranks(lexicon), row)| == 1)
  {
    hide SortedRow, Hit, Ranks, Scan, FormsShowing, Materialized, TopOf;
    var row := SortedRow(lower, lexicon, k);
    SortedRowScans(lower, lexicon, k);
    RowEmptyWhenUnknown(lower, lexicon, k);
    if row != [] {
      TopCountsBest(lower, lexicon, k);
      if !TwoBest(lower, lexicon, k) {
        HeadIsFirstForm(lower, lexicon, k);
      }
      if |row| == 1 {
        TopIsReflexive(Ranks(lexicon), row[0]);
        assert TopIndices(Ranks(lexicon), row) == {row[0].lexemeIndex};
      }
    }
  }

  /** Each of the three answers read off a sorted row is the correct one. */
  lemma AnswersCorrect(lower: Lower, lexicon: seq<LexemeEntry>, k: string)
    requires DistinctLemmas(lower, lexicon)
    ensures var row := SortedRow(lower, lexicon, k);
            && InRange(lexicon, row)
            && (row == [] ==> CorrectAnswer(lower, lexicon, k, Unknown))
            && (TwoBest(lower, lexicon, k)
                ==> CorrectAnswer(lower, lexicon, k, Ambiguous(Map(Materialized(lexicon), row))))
            && (row != [] && !TwoBest(lower, lexicon, k)
                ==> CorrectAnswer(
                      lower, lexicon, k, Resolved(Resolution(lexicon[row[0].lexemeIndex], row[0].caseNumber))))
  {
    hide SortedRow, Hit, Ranks, Scan, FormsShowing, Materialized, TopIndices, Best;
    RowDecides(lower, lexicon, k);
  }

  /** Loading order is irrelevant: two runtimes built from rearrangements of one list give every surface
      the same resolution, or the same candidates in some order. */
  lemma LoadOrderIrrelevant(
      one: MorphologyRuntime, two: MorphologyRuntime,
      entries: seq<LexemeEntry>, rearranged: seq<LexemeEntry>, surface: string)
    requires one.Valid() && two.Valid() && one.lower == two.lower
    requires multiset(entries) == multiset(rearranged)
    requires Load(one.lower, entries) == Loaded(one.lexicon)
    requires Load(two.lower, rearranged) == Loaded(two.lexicon)
    ensures SameKind(one.Lemmatize(surface), two.Lemmatize(surface))
    ensures one.AmbiguousSurfaceCount() == two.AmbiguousSurfaceCount()
  {
    hide Load, CorrectAnswer, Best;
    LoadForgetsOrder(one.lower, entries, rearranged);
    var k := one.lower(surface);
    AnswerForgetsOrder(one.lower, one.lexicon, two.lexicon, k, one.Lemmatize(surface));
    CorrectAnswerUnique(one.lower, two.lexicon, k, one.Lemmatize(surface), two.Lemmatize(surface));
    forall w
      ensures w in one.ContestedSurfaces() <==> w in two.ContestedSurfaces()
    {
      TwoBestForgetsOrder(one.lower, one.lexicon, two.lexicon, w);
    }
    assert one.ContestedSurfaces() == two.ContestedSurfaces();
  }

  lemma TwoBestForgetsOrder(lower: Lower, s: seq<LexemeEntry>, t: seq<LexemeEntry>, k: string)
    requires multiset(s) == multiset(t)
    ensures TwoBest(lower, s, k) <==> TwoBest(lower, t, k)
  {
    hide Hit;
    SameElements(s, t);
    assert forall e :: Best(lower, s, e, k) <==> Best(lower, t, e, k);
  }

  /** The row for `k` while the rows in `todo` are still unsorted. */
  ghost function RowWhile(lower: Lower, lexicon: seq<LexemeEntry>, todo: set<string>, k: string)
    : seq<IndexedCandidate>
  {
    if k in todo then RawRow(lower, lexicon, k) else SortedRow(lower, lexicon, k)
  }

  lemma KnownGrows(lower: Lower, lexicon: seq<LexemeEntry>, e: LexemeEntry)
    ensures forall w :: Known(lower, lexicon + [e], w) <==> Known(lower, lexicon, w) || w == lower(e.lemmaForm)
  {
    var grown := lexicon + [e];
    forall w
      ensures Known(lower, grown, w) <==> Known(lower, lexicon, w) || w == lower(e.lemmaForm)
    {
      if Known(lower, lexicon, w) {
        var i :| 0 <= i < |lexicon| && lower(lexicon[i].lemmaForm) == w;
        assert grown[i] == lexicon[i];
      }
      if w == lower(e.lemmaForm) {
        assert grown[|lexicon|] == e;
      }
    }
  }

  /** The entry known under a lemma is the given one exactly when the given one was kept. */
  lemma KnownEntry(lower: Lower, lexicon: seq<LexemeEntry>, i: nat, e: LexemeEntry)
    requires DistinctLemmas(lower, lexicon) && i < |lexicon|
    requires lower(lexicon[i].lemmaForm) == lower(e.lemmaForm)
    ensures e in lexicon <==> lexicon[i] == e
  {
  }

  lemma NothingLoaded(lower: Lower)
    ensures Load(lower, []) == Loaded([])
    ensures forall k :: RawRow(lower, [], k) == []
  {
  }

  /** One step of the load, and what a failure at that step means for the whole list. */
  lemma LoadStep(lower: Lower, entries: seq<LexemeEntry>, i: nat, lexicon: seq<LexemeEntry>)
    requires i < |entries| && Load(lower, entries[..i]) == Loaded(lexicon)
    ensures entries[i].lemmaForm == "" ==> Load(lower, entries) == Failed(EmptyLemma)
    ensures var e := entries[i];
            e.lemmaForm != ""
            ==> if !Known(lower, lexicon, lower(e.lemmaForm))
                then Load(lower, entries[..i + 1]) == Loaded(lexicon + [e])
                else if e in lexicon then Load(lower, entries[..i + 1]) == Loaded(lexicon)
                else Load(lower, entries) == Failed(DuplicateLemma(lower(e.lemmaForm)))
  {
    assert entries[..i + 1][..i] == entries[..i];
    LoadKeepsFailing(lower, entries, i + 1, |entries|);
    assert entries[..|entries|] == entries;
  }

  lemma {:induction false} LoadKeepsFailing(lower: Lower, entries: seq<LexemeEntry>, i: nat, n: nat)
    requires i <= n <= |entries|
    ensures Load(lower, entries[..i]).Failed? ==> Load(lower, entries[..n]) == Load(lower, entries[..i])
    decreases n
  {
    if i < n {
      LoadKeepsFailing(lower, entries, i, n - 1);
      assert entries[..n][..n - 1] == entries[..n - 1];
    }
  }

  /** The row for `k` when the forms in `done` of the next lexeme have been pushed. */
  ghost function RowSoFar(lower: Lower, lexicon: seq<LexemeEntry>, e: LexemeEntry, done: seq<CaseNumber>, k: string)
    : seq<IndexedCandidate>
  {
    RawRow(lower, lexicon, k) + EntryRow(|lexicon|, e, Filter(done, ShowsAt(lower, e, k)))
  }

  lemma RowSoFarGrows(
      lower: Lower, lexicon: seq<LexemeEntry>, e: LexemeEntry, done: seq<CaseNumber>, cn: CaseNumber, k: string)
    ensures RowSoFar(lower, lexicon, e, done + [cn], k)
            == RowSoFar(lower, lexicon, e, done, k)
               + if Shows(lower, e, cn, k) then [IndexedCandidate(|lexicon|, cn, e.quality)] else []
  {
    hide RawRow, Shows;
    FilterSnoc(done, cn, ShowsAt(lower, e, k));
    var cns := Filter(done, ShowsAt(lower, e, k));
    if Shows(lower, e, cn, k) {
      assert EntryRow(|lexicon|, e, cns + [cn])
          == EntryRow(|lexicon|, e, cns) + [IndexedCandidate(|lexicon|, cn, e.quality)];
    }
  }

  lemma RowSoFarComplete(lower: Lower, lexicon: seq<LexemeEntry>, e: LexemeEntry, k: string)
    ensures RowSoFar(lower, lexicon, e, FORM_ORDER, k) == RawRow(lower, lexicon + [e], k)
    ensures RowSoFar(lower, lexicon, e, [], k) == RawRow(lower, lexicon, k)
  {
    assert (lexicon + [e])[..|lexicon|] == lexicon;
  }

  lemma ShowsOnlyLowered(lower: Lower, e: LexemeEntry, cn: CaseNumber)
    ensures forall k :: Shows(lower, e, cn, k) <==> e.forms.Get(cn) != "" && k == lower(e.forms.Get(cn))
  {
  }
}
