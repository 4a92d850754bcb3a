/** Which lexemes a load keeps, and the compact candidates its index holds. */
module Loading {
  import opened StableSort
  import opened Lexicon

  datatype LoadError = EmptyLemma | DuplicateLemma(lowered: string)

  datatype LoadResult = Loaded(lexicon: seq<LexemeEntry>) | Failed(error: LoadError)

  // ---------- The duplicate rule ----------

  predicate Known(lower: Lower, lexicon: seq<LexemeEntry>, lowered: string) {
    exists i :: 0 <= i < |lexicon| && lower(lexicon[i].lemmaForm) == lowered
  }

  /** An entry with an empty lemma or with a known lemma but other content is refused; an exact repeat
      is skipped. */
  function Accept(lower: Lower, lexicon: seq<LexemeEntry>, e: LexemeEntry): LoadResult {
    if e.lemmaForm == "" then Failed(EmptyLemma)
    else if !Known(lower, lexicon, lower(e.lemmaForm)) then Loaded(lexicon + [e])
    else if e in lexicon then Loaded(lexicon)
    else Failed(DuplicateLemma(lower(e.lemmaForm)))
  }

  function Load(lower: Lower, entries: seq<LexemeEntry>): LoadResult {
    if entries == [] then Loaded([])
    else
      match Load(lower, entries[..|entries| - 1])
      case Failed(error) => Failed(error)
      case Loaded(lexicon) => Accept(lower, lexicon, entries[|entries| - 1])
  }

  ghost predicate DistinctLemmas(lower: Lower, lexicon: seq<LexemeEntry>) {
    forall i, j :: 0 <= i < j < |lexicon| ==> lower(lexicon[i].lemmaForm) != lower(lexicon[j].lemmaForm)
  }

  /** What a list of entries must satisfy to load, said without an order. */
  ghost predicate Loadable(lower: Lower, entries: seq<LexemeEntry>) {
    && (forall e :: e in entries ==> e.lemmaForm != "")
    && (forall e, f :: e in entries && f in entries && lower(e.lemmaForm) == lower(f.lemmaForm) ==> e == f)
  }

  lemma AcceptExact(lower: Lower, entries: seq<LexemeEntry>, lexicon: seq<LexemeEntry>, e: LexemeEntry)
    requires Loadable(lower, entries) && DistinctLemmas(lower, lexicon)
    requires forall f :: f in lexicon <==> f in entries
    ensures var r := Accept(lower, lexicon, e);
            && (r.Loaded? <==> Loadable(lower, entries + [e]))
            && (r.Loaded? ==> && DistinctLemmas(lower, r.lexicon)
                              && forall f :: f in r.lexicon <==> f in entries + [e])
  {
    if Known(lower, lexicon, lower(e.lemmaForm)) {
      var i :| 0 <= i < |lexicon| && lower(lexicon[i].lemmaForm) == lower(e.lemmaForm);
      assert lexicon[i] in lexicon;
    } else {
      forall f | f in entries
        ensures lower(f.lemmaForm) != lower(e.lemmaForm)
      {
        assert f in lexicon;
      }
    }
  }

  lemma {:induction false} LoadExact(lower: Lower, entries: seq<LexemeEntry>)
    ensures Load(lower, entries).Loaded? <==> Loadable(lower, entries)
    ensures Load(lower, entries).Loaded?
            ==> && DistinctLemmas(lower, Load(lower, entries).lexicon)
                && forall e :: e in Load(lower, entries).lexicon <==> e in entries
    decreases |entries|
  {
    hide Accept;
    if entries != [] {
      var n := |entries| - 1;
      assert entries == entries[..n] + [entries[n]];
      LoadExact(lower, entries[..n]);
      if Load(lower, entries[..n]).Loaded? {
        AcceptExact(lower, entries[..n], Load(lower, entries[..n]).lexicon, entries[n]);
      }
    }
  }

  /** What the first offending entry is refused for: an empty lemma, or other content under a lemma that an
      earlier entry has. */
  ghost predicate Offends(lower: Lower, entries: seq<LexemeEntry>, i: nat, error: LoadError) {
    && i < |entries| && Loadable(lower, entries[..i])
    && match error
       case EmptyLemma => entries[i].lemmaForm == ""
       case DuplicateLemma(w) =>
         && entries[i].lemmaForm != "" && w == lower(entries[i].lemmaForm)
         && exists e :: e in entries[..i] && lower(e.lemmaForm) == w && e != entries[i]
  }

  lemma OffenderIsRefused(lower: Lower, entries: seq<LexemeEntry>, i: nat)
    requires i < |entries| && Load(lower, entries[..i]).Loaded?
    ensures var r := Load(lower, entries[..i + 1]);
            r.Failed? ==> Offends(lower, entries, i, r.error)
  {
    assert entries[..i + 1][..i] == entries[..i];
    LoadExact(lower, entries[..i]);
    var lexicon, e := Load(lower, entries[..i]).lexicon, entries[i];
    if e.lemmaForm != "" && Known(lower, lexicon, lower(e.lemmaForm)) {
      var j :| 0 <= j < |lexicon| && lower(lexicon[j].lemmaForm) == lower(e.lemmaForm);
      assert lexicon[j] in lexicon;
    }
  }

  /** A load that fails names the offence of its first offending entry. */
  lemma {:induction false} LoadErrorMeans(lower: Lower, entries: seq<LexemeEntry>) returns (i: nat)
    requires Load(lower, entries).Failed?
    ensures Offends(lower, entries, i, Load(lower, entries).error)
    decreases |entries|
  {
    hide Loadable, Accept;
    var n := |entries| - 1;
    if Load(lower, entries[..n]).Failed? {
      i := LoadErrorMeans(lower, entries[..n]);
      assert entries[..n][..i] == entries[..i];
    } else {
      i := n;
      OffenderIsRefused(lower, entries, n);
      assert entries[..n + 1] == entries;
    }
  }

  lemma {:induction false} SameDistinct(lower: Lower, s: seq<LexemeEntry>, t: seq<LexemeEntry>)
    requires DistinctLemmas(lower, s) && DistinctLemmas(lower, t)
    requires forall e :: e in s <==> e in t
    ensures multiset(s) == multiset(t)
  {
    forall e
      ensures multiset(s)[e] == multiset(t)[e]
    {
      AtMostOnce(lower, s, e);
      AtMostOnce(lower, t, e);
    }
  }

  lemma {:induction false} AtMostOnce(lower: Lower, s: seq<LexemeEntry>, e: LexemeEntry)
    requires DistinctLemmas(lower, s)
    ensures multiset(s)[e] == if e in s then 1 else 0
    decreases |s|
  {
    if s != [] {
      assert s == [s[0]] + s[1..];
      AtMostOnce(lower, s[1..], e);
    }
  }

  /** Loading any rearrangement succeeds or fails alike and keeps the same lexemes. */
  lemma LoadForgetsOrder(lower: Lower, s: seq<LexemeEntry>, t: seq<LexemeEntry>)
    requires multiset(s) == multiset(t)
    ensures Load(lower, s).Loaded? <==> Load(lower, t).Loaded?
    ensures Load(lower, s).Loaded?
            ==> multiset(Load(lower, s).lexicon) == multiset(Load(lower, t).lexicon)
  {
    hide Load;
    SameElements(s, t);
    LoadExact(lower, s);
    LoadExact(lower, t);
    if Load(lower, s).Loaded? {
      SameDistinct(lower, Load(lower, s).lexicon, Load(lower, t).lexicon);
    }
  }

  // ---------- Index rows ----------

  datatype IndexedCandidate = IndexedCandidate(lexemeIndex: nat, caseNumber: CaseNumber, confidence: real)

  function EntryRow(index: nat, e: LexemeEntry, cns: seq<CaseNumber>): seq<IndexedCandidate> {
    seq(|cns|, i requires 0 <= i < |cns| => IndexedCandidate(index, cns[i], e.quality))
  }

  /** The row for `k` as the forms are met, lexeme by lexeme. */
  function RawRow(lower: Lower, lexicon: seq<LexemeEntry>, k: string): seq<IndexedCandidate> {
    if lexicon == [] then []
    else
      var n := |lexicon| - 1;
      RawRow(lower, lexicon[..n], k) + EntryRow(n, lexicon[n], FormsShowing(lower, lexicon[n], k))
  }

  function Ranks(lexicon: seq<LexemeEntry>): seq<nat> {
    seq(|lexicon|, i requires 0 <= i < |lexicon| => lexicon[i].tier.TrustRank())
  }

  function RankAt(ranks: seq<nat>, c: IndexedCandidate): nat {
    if c.lexemeIndex < |ranks| then ranks[c.lexemeIndex] else 0
  }

  /** Descending trust, then descending quality. */
  function MoreTrusted(ranks: seq<nat>): (IndexedCandidate, IndexedCandidate) -> bool {
    (a: IndexedCandidate, b: IndexedCandidate) =>
      RankAt(ranks, a) > RankAt(ranks, b) || (RankAt(ranks, a) == RankAt(ranks, b) && a.confidence >= b.confidence)
  }

  function SortedRow(lower: Lower, lexicon: seq<LexemeEntry>, k: string): seq<IndexedCandidate> {
    Sort(RawRow(lower, lexicon, k), MoreTrusted(Ranks(lexicon)))
  }

  /** `c` stands for a form of the lexicon that shows `k`. */
  ghost predicate StandsFor(lower: Lower, lexicon: seq<LexemeEntry>, k: string, c: IndexedCandidate) {
    && c.lexemeIndex < |lexicon|
    && Shows(lower, lexicon[c.lexemeIndex], c.caseNumber, k)
    && c.confidence == lexicon[c.lexemeIndex].quality
  }

  lemma FormsShowingExact(lower: Lower, e: LexemeEntry, k: string, cn: CaseNumber)
    ensures cn in FormsShowing(lower, e, k) <==> Shows(lower, e, cn, k)
  {
    FilterMember(FORM_ORDER, ShowsAt(lower, e, k), cn);
    EveryFormIsIndexed(cn);
  }

  lemma {:induction false} RawRowExact(lower: Lower, lexicon: seq<LexemeEntry>, k: string, c: IndexedCandidate)
    ensures c in RawRow(lower, lexicon, k) <==> StandsFor(lower, lexicon, k, c)
    decreases |lexicon|
  {
    hide FormsShowing, Shows;
    if lexicon != [] {
      var n := |lexicon| - 1;
      RawRowExact(lower, lexicon[..n], k, c);
      var cns := FormsShowing(lower, lexicon[n], k);
      FormsShowingExact(lower, lexicon[n], k, c.caseNumber);
      var row := EntryRow(n, lexicon[n], cns);
      if c in row {
        var i :| 0 <= i < |row| && row[i] == c;
        assert cns[i] in cns;
      }
      if c.lexemeIndex == n && c.caseNumber in cns && c.confidence == lexicon[n].quality {
        var i :| 0 <= i < |cns| && cns[i] == c.caseNumber;
        assert row[i] == c;
      }
    }
  }

  lemma SortedRowExact(lower: Lower, lexicon: seq<LexemeEntry>, k: string)
    ensures forall c :: c in SortedRow(lower, lexicon, k) <==> StandsFor(lower, lexicon, k, c)
    ensures SortedBy(SortedRow(lower, lexicon, k), MoreTrusted(Ranks(lexicon)))
    ensures multiset(SortedRow(lower, lexicon, k)) == multiset(RawRow(lower, lexicon, k))
  {
    hide StandsFor, RawRow, MoreTrusted;
    var raw, le := RawRow(lower, lexicon, k), MoreTrusted(Ranks(lexicon));
    forall c
      ensures c in raw <==> StandsFor(lower, lexicon, k, c)
    {
      RawRowExact(lower, lexicon, k, c);
    }
    SortMembers(raw, le);
    SortPermutes(raw, le);
    MoreTrustedIsPreorder(Ranks(lexicon));
    SortSorts(raw, le);
  }

  lemma MoreTrustedIsPreorder(ranks: seq<nat>)
    ensures TotalPreorder(MoreTrusted(ranks))
  {
  }

  // ---------- What the sorted row decides ----------

  function TopOf(ranks: seq<nat>, best: IndexedCandidate): IndexedCandidate -> bool {
    (c: IndexedCandidate) => RankAt(ranks, c) == RankAt(ranks, best) && c.confidence == best.confidence
  }

  /** The head of the row belongs to a best lexeme, and the candidates tied with it are exactly those
      of best lexemes. */
  lemma HeadIsBest(lower: Lower, lexicon: seq<LexemeEntry>, k: string)
    requires SortedRow(lower, lexicon, k) != []
    ensures var row := SortedRow(lower, lexicon, k);
            forall c :: c in row ==> (&& c.lexemeIndex < |lexicon|
                                      && (TopOf(Ranks(lexicon), row[0])(c)
                                          <==> Best(lower, lexicon, lexicon[c.lexemeIndex], k)))
  {
    hide SortedRow, Shows;
    var row, ranks := SortedRow(lower, lexicon, k), Ranks(lexicon);
    SortedRowExact(lower, lexicon, k);
    forall c | c in row
      ensures c.lexemeIndex < |lexicon|
      ensures TopOf(ranks, row[0])(c) <==> Best(lower, lexicon, lexicon[c.lexemeIndex], k)
    {
      var head := row[0];
      assert head in row;
      var e := lexicon[c.lexemeIndex];
      assert Hit(lower, e, k) by { assert Shows(lower, e, c.caseNumber, k); }
      var first := lexicon[head.lexemeIndex];
      assert Hit(lower, first, k) by { assert Shows(lower, first, head.caseNumber, k); }
      RowHeadAtLeast(lower, lexicon, k);
      assert AtLeast(first, e);
      if Best(lower, lexicon, e, k) {
        assert AtLeast(e, first);
      }
    }
  }

  lemma RowHeadAtLeast(lower: Lower, lexicon: seq<LexemeEntry>, k: string)
    requires SortedRow(lower, lexicon, k) != []
    ensures var row := SortedRow(lower, lexicon, k);
            row[0].lexemeIndex < |lexicon|
            && forall e :: e in lexicon && Hit(lower, e, k) ==> AtLeast(lexicon[row[0].lexemeIndex], e)
  {
    hide SortedRow, Shows;
    var row, ranks := SortedRow(lower, lexicon, k), Ranks(lexicon);
    SortedRowExact(lower, lexicon, k);
    var head := row[0];
    assert head in row;
    forall e | e in lexicon && Hit(lower, e, k)
      ensures AtLeast(lexicon[head.lexemeIndex], e)
    {
      var j :| 0 <= j < |lexicon| && lexicon[j] == e;
      var cn :| Shows(lower, e, cn, k);
      var c := IndexedCandidate(j, cn, e.quality);
      assert StandsFor(lower, lexicon, k, c);
      var p :| 0 <= p < |row| && row[p] == c;
      assert p == 0 || MoreTrusted(ranks)(head, c);
    }
  }

  lemma RowEmptyWhenUnknown(lower: Lower, lexicon: seq<LexemeEntry>, k: string)
    ensures SortedRow(lower, lexicon, k) == [] <==> forall e :: e in lexicon ==> !Hit(lower, e, k)
  {
    hide SortedRow, Shows, RawRow, MoreTrusted;
    var row := SortedRow(lower, lexicon, k);
    SortedRowExact(lower, lexicon, k);
    if row == [] {
      forall e | e in lexicon
        ensures !Hit(lower, e, k)
      {
        if Hit(lower, e, k) {
          var c := EntryInRow(lower, lexicon, k, e);
        }
      }
    } else {
      assert row[0] in row;
      var e := lexicon[row[0].lexemeIndex];
      assert Shows(lower, e, row[0].caseNumber, k);
      assert e in lexicon && Hit(lower, e, k);
    }
  }

  /** A lexeme that shows `k` has a candidate in the row. */
  lemma EntryInRow(lower: Lower, lexicon: seq<LexemeEntry>, k: string, e: LexemeEntry)
    returns (c: IndexedCandidate)
    requires e in lexicon && Hit(lower, e, k)
    ensures c in SortedRow(lower, lexicon, k) && c.lexemeIndex < |lexicon| && lexicon[c.lexemeIndex] == e
  {
    hide SortedRow, Shows, RawRow, MoreTrusted;
    SortedRowExact(lower, lexicon, k);
    var j :| 0 <= j < |lexicon| && lexicon[j] == e;
    var cn :| Shows(lower, e, cn, k);
    c := IndexedCandidate(j, cn, e.quality);
    assert StandsFor(lower, lexicon, k, c);
  }

  /** With one best lexeme, what is tied at the top of the unsorted row is that lexeme's own stretch. */
  lemma {:induction false} RawTop(
      lower: Lower, lexicon: seq<LexemeEntry>, k: string, keep: IndexedCandidate -> bool, i: nat)
    requires forall c :: c in RawRow(lower, lexicon, k) ==> (keep(c) <==> c.lexemeIndex == i)
    ensures Filter(RawRow(lower, lexicon, k), keep)
            == if i < |lexicon| then EntryRow(i, lexicon[i], FormsShowing(lower, lexicon[i], k)) else []
    decreases |lexicon|
  {
    hide FormsShowing, EntryRow, Filter;
    if lexicon == [] {
      FilterNothing(keep);
    } else {
      var n := |lexicon| - 1;
      var before := RawRow(lower, lexicon[..n], k);
      var stretch := EntryRow(n, lexicon[n], FormsShowing(lower, lexicon[n], k));
      assert RawRow(lower, lexicon, k) == before + stretch;
      RawTop(lower, lexicon[..n], k, keep, i);
      FilterConcat(before, stretch, keep);
      StretchKept(n, lexicon[n], FormsShowing(lower, lexicon[n], k), keep, i);
    }
  }

  lemma FilterNothing(keep: IndexedCandidate -> bool)
    ensures Filter([], keep) == []
  {
  }

  /** One lexeme's stretch is kept whole or dropped whole. */
  lemma StretchKept(n: nat, e: LexemeEntry, cns: seq<CaseNumber>, keep: IndexedCandidate -> bool, i: nat)
    requires forall c :: c in EntryRow(n, e, cns) ==> (keep(c) <==> c.lexemeIndex == i)
    ensures Filter(EntryRow(n, e, cns), keep) == if n == i then EntryRow(n, e, cns) else []
  {
    hide Filter;
    FilterUniform(EntryRow(n, e, cns), keep, n == i);
  }

  lemma {:induction false} FilterUniform(s: seq<IndexedCandidate>, keep: IndexedCandidate -> bool, all: bool)
    requires forall j :: 0 <= j < |s| ==> keep(s[j]) == all
    ensures Filter(s, keep) == if all then s else []
    decreases |s|
  {
    if s != [] {
      FilterUniform(s[..|s| - 1], keep, all);
      assert s == s[..|s| - 1] + [s[|s| - 1]];
    }
  }

  lemma {:induction false} FilterHead(s: seq<IndexedCandidate>, keep: IndexedCandidate -> bool)
    requires s != [] && keep(s[0])
    ensures Filter(s, keep) != [] && Filter(s, keep)[0] == s[0]
    decreases |s|
  {
    if |s| > 1 {
      FilterHead(s[..|s| - 1], keep);
    } else {
      assert s[..0] == [];
    }
  }

  /** The lexemes tied at the top of a row. */
  function TopIndices(ranks: seq<nat>, row: seq<IndexedCandidate>): set<nat>
    requires row != []
  {
    set c | c in row && TopOf(ranks, row[0])(c) :: c.lexemeIndex
  }

  lemma TwoMembers(s: set<nat>, a: nat, b: nat)
    requires a in s && b in s && a != b
    ensures |s| > 1
  {
    assert s == {a} + (s - {a});
    assert |s - {a}| > 0;
  }

  lemma MoreThanOne(s: set<nat>) returns (a: nat, b: nat)
    requires |s| > 1
    ensures a in s && b in s && a != b
  {
    a :| a in s;
    assert s != {a};
    assert s - {a} != {};
    b :| b in s - {a};
  }

  /** More than one lexeme is tied at the top exactly when two different lexemes are best. */
  lemma TopCountsBest(lower: Lower, lexicon: seq<LexemeEntry>, k: string)
    requires DistinctLemmas(lower, lexicon) && SortedRow(lower, lexicon, k) != []
    ensures |TopIndices(Ranks(lexicon), SortedRow(lower, lexicon, k))| > 1
            <==> exists a, b :: a != b && Best(lower, lexicon, a, k) && Best(lower, lexicon, b, k)
  {
    hide SortedRow, Hit, TopOf, Ranks;
    var row, ranks := SortedRow(lower, lexicon, k), Ranks(lexicon);
    var top := TopIndices(ranks, row);
    HeadIsBest(lower, lexicon, k);
    if |top| > 1 {
      var i, j := MoreThanOne(top);
      assert Best(lower, lexicon, lexicon[i], k) && Best(lower, lexicon, lexicon[j], k);
      assert lexicon[i] != lexicon[j];
    }
    if a, b :| a != b && Best(lower, lexicon, a, k) && Best(lower, lexicon, b, k) {
      var c := EntryInRow(lower, lexicon, k, a);
      var d := EntryInRow(lower, lexicon, k, b);
      TwoMembers(top, c.lexemeIndex, d.lexemeIndex);
    }
  }

  /** With a single best lexeme the head of the row is that lexeme in its first matching form. */
  lemma HeadIsFirstForm(lower: Lower, lexicon: seq<LexemeEntry>, k: string)
    requires DistinctLemmas(lower, lexicon) && SortedRow(lower, lexicon, k) != []
    requires |TopIndices(Ranks(lexicon), SortedRow(lower, lexicon, k))| <= 1
    ensures var head := SortedRow(lower, lexicon, k)[0];
            && head.lexemeIndex < |lexicon|
            && OnlyBest(lower, lexicon, lexicon[head.lexemeIndex], k)
            && FormsShowing(lower, lexicon[head.lexemeIndex], k) != []
            && head.caseNumber == FormsShowing(lower, lexicon[head.lexemeIndex], k)[0]
  {
    hide Hit, TopOf, Ranks, FormsShowing, RawRow, MoreTrusted;
    var raw, row, ranks := RawRow(lower, lexicon, k), SortedRow(lower, lexicon, k), Ranks(lexicon);
    var head := row[0];
    var i := head.lexemeIndex;
    assert head in row;
    HeadIsBest(lower, lexicon, k);
    TopCountsBest(lower, lexicon, k);
    SortedRowExact(lower, lexicon, k);
    SameElements(raw, row);
    assert TopOf(ranks, head)(head) by { TopIsReflexive(ranks, head); }
    forall c | c in raw
      ensures TopOf(ranks, head)(c) <==> c.lexemeIndex == i
    {
      assert c in row;
      if c.lexemeIndex == i {
        assert Best(lower, lexicon, lexicon[i], k);
      } else if TopOf(ranks, head)(c) {
        TwoMembers(TopIndices(ranks, row), c.lexemeIndex, i);
      }
    }
    RawTop(lower, lexicon, k, TopOf(ranks, head), i);
    TopTies(ranks, head);
    SortStable(raw, MoreTrusted(ranks), TopOf(ranks, head));
    FilterHead(row, TopOf(ranks, head));
  }

  lemma TopIsReflexive(ranks: seq<nat>, c: IndexedCandidate)
    ensures TopOf(ranks, c)(c)
  {
  }

  lemma TopTies(ranks: seq<nat>, head: IndexedCandidate)
    ensures OneTie(TopOf(ranks, head), MoreTrusted(ranks))
  {
  }

  // ---------- Materialising a row ----------

  /** The public candidate an index entry stands for. */
  function Materialized(lexicon: seq<LexemeEntry>): IndexedCandidate --> LexemeCandidate {
    (c: IndexedCandidate) requires c.lexemeIndex < |lexicon| =>
      var e := lexicon[c.lexemeIndex];
      LexemeCandidate(e.forms.Get(c.caseNumber), e, c.caseNumber, c.confidence)
  }

  ghost predicate InRange(lexicon: seq<LexemeEntry>, row: seq<IndexedCandidate>) {
    forall c :: c in row ==> c.lexemeIndex < |lexicon|
  }

  lemma {:induction false} EntryRowScans(
      lexicon: seq<LexemeEntry>, index: nat, cns: seq<CaseNumber>)
    requires index < |lexicon|
    ensures InRange(lexicon, EntryRow(index, lexicon[index], cns))
    ensures Map(Materialized(lexicon), EntryRow(index, lexicon[index], cns)) == ScanEntry(lexicon[index], cns)
    decreases |cns|
  {
    var e := lexicon[index];
    if cns != [] {
      EntryRowScans(lexicon, index, cns[1..]);
      assert EntryRow(index, e, cns)[1..] == EntryRow(index, e, cns[1..]);
      assert ScanEntry(e, cns) == [Candidate(e, cns[0])] + ScanEntry(e, cns[1..]);
    }
  }

  /** Materialising the unsorted row of a prefix of the lexicon is the scan of that prefix. */
  lemma {:induction false} RawRowScans(lower: Lower, lexicon: seq<LexemeEntry>, m: nat, k: string)
    requires m <= |lexicon|
    ensures InRange(lexicon, RawRow(lower, lexicon[..m], k))
    ensures Map(Materialized(lexicon), RawRow(lower, lexicon[..m], k)) == Scan(lower, lexicon[..m], k)
    decreases m
  {
    hide FormsShowing, Materialized;
    if m > 0 {
      RawRowScans(lower, lexicon, m - 1, k);
      assert lexicon[..m][..m - 1] == lexicon[..m - 1];
      var cns := FormsShowing(lower, lexicon[m - 1], k);
      EntryRowScans(lexicon, m - 1, cns);
      var before, stretch := RawRow(lower, lexicon[..m - 1], k), EntryRow(m - 1, lexicon[m - 1], cns);
      assert RawRow(lower, lexicon[..m], k) == before + stretch;
      MaterializedTotal(lexicon, before + stretch);
      MapConcat(Materialized(lexicon), before, stretch);
    }
  }

  lemma MaterializedTotal(lexicon: seq<LexemeEntry>, row: seq<IndexedCandidate>)
    requires InRange(lexicon, row)
    ensures forall c :: c in row ==> Materialized(lexicon).requires(c)
  {
  }

  /** The materialised row holds the candidates of the full scan, each as often. */
  lemma SortedRowScans(lower: Lower, lexicon: seq<LexemeEntry>, k: string)
    ensures InRange(lexicon, SortedRow(lower, lexicon, k))
    ensures multiset(Map(Materialized(lexicon), SortedRow(lower, lexicon, k))) == multiset(Scan(lower, lexicon, k))
  {
    hide RawRow, SortedRow, Scan, Materialized;
    var raw, row := RawRow(lower, lexicon, k), SortedRow(lower, lexicon, k);
    assert lexicon[..|lexicon|] == lexicon;
    RawRowScans(lower, lexicon, |lexicon|, k);
    SortedRowExact(lower, lexicon, k);
    SameElements(raw, row);
    MaterializedTotal(lexicon, raw);
    MaterializedTotal(lexicon, row);
    MapForgetsOrder(Materialized(lexicon), raw, row);
  }
}
