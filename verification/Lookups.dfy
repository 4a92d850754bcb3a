/** What the morphology lookups answer, said of the twelve fields of every lexeme and the tiers by name. */
module Lookups {
  import opened StableSort
  import opened Lexicon
  import opened Loading
  import opened Morphology

  /** The fields of a lexeme with the case and number each stands for, in the order they are indexed. */
  ghost function Fields(e: LexemeEntry): (fields: seq<(CaseNumber, string)>)
    ensures |fields| == 12
  {
    [(CaseNumber(Nominative, Singular), e.forms.nomSg), (CaseNumber(Nominative, Plural), e.forms.nomPl),
     (CaseNumber(Genitive, Singular), e.forms.genSg), (CaseNumber(Genitive, Plural), e.forms.genPl),
     (CaseNumber(Dative, Singular), e.forms.datSg), (CaseNumber(Dative, Plural), e.forms.datPl),
     (CaseNumber(Accusative, Singular), e.forms.accSg), (CaseNumber(Accusative, Plural), e.forms.accPl),
     (CaseNumber(Instrumental, Singular), e.forms.insSg), (CaseNumber(Instrumental, Plural), e.forms.insPl),
     (CaseNumber(Prepositional, Singular), e.forms.prepSg), (CaseNumber(Prepositional, Plural), e.forms.prepPl)]
  }

  lemma FieldsAreForms(e: LexemeEntry, i: nat)
    requires i < 12
    ensures |FORM_ORDER| == 12 && Fields(e)[i] == (FORM_ORDER[i], e.forms.Get(FORM_ORDER[i]))
  {
  }

  /** Field `i` of `e` is the surface in question. */
  ghost predicate ShownBy(lower: Lower, e: LexemeEntry, k: string, i: nat) {
    i < 12 && Fields(e)[i].1 != "" && lower(Fields(e)[i].1) == k
  }

  ghost predicate FirstShownBy(lower: Lower, e: LexemeEntry, k: string, i: nat) {
    ShownBy(lower, e, k, i) && forall j: nat :: j < i ==> !ShownBy(lower, e, k, j)
  }

  ghost predicate ShownSomewhere(lower: Lower, e: LexemeEntry, k: string) {
    exists i: nat :: ShownBy(lower, e, k, i)
  }

  /** The tiers from the least to the most trusted. */
  ghost function Tiers(): seq<SourceTier> {
    [AutoCoverage, AutoVerified, Reviewed, Curated]
  }

  /** A more trusted tier, or the same tier and a higher quality. */
  ghost predicate Outranks(a: LexemeEntry, b: LexemeEntry) {
    || (exists i, j :: 0 <= i < j < 4 && b.tier == Tiers()[i] && a.tier == Tiers()[j])
    || (a.tier == b.tier && a.quality > b.quality)
  }

  lemma OutranksMeans(a: LexemeEntry, b: LexemeEntry)
    ensures Outranks(a, b) <==> !AtLeast(b, a)
  {
    var t := Tiers();
    assert t[0] == AutoCoverage && t[1] == AutoVerified && t[2] == Reviewed && t[3] == Curated;
    var i, j := b.tier.TrustRank() - 1, a.tier.TrustRank() - 1;
    assert b.tier == t[i] && a.tier == t[j];
  }

  lemma ShownIsShows(lower: Lower, e: LexemeEntry, k: string, i: nat)
    requires i < 12
    ensures |FORM_ORDER| == 12 && (ShownBy(lower, e, k, i) <==> Shows(lower, e, FORM_ORDER[i], k))
  {
    hide Fields;
    FieldsAreForms(e, i);
  }

  lemma ShownIsHit(lower: Lower, e: LexemeEntry, k: string)
    ensures ShownSomewhere(lower, e, k) <==> Hit(lower, e, k)
  {
    hide Shows, ShownBy;
    if i: nat :| ShownBy(lower, e, k, i) {
      ShownInRange(lower, e, k, i);
      ShownIsShows(lower, e, k, i);
    }
    if cn :| Shows(lower, e, cn, k) {
      EveryFormIsIndexed(cn);
      FormCount();
      var i :| 0 <= i < |FORM_ORDER| && FORM_ORDER[i] == cn;
      ShownIsShows(lower, e, k, i);
    }
  }

  lemma FormCount()
    ensures |FORM_ORDER| == 12
  {
  }

  lemma ShownInRange(lower: Lower, e: LexemeEntry, k: string, i: nat)
    requires ShownBy(lower, e, k, i)
    ensures i < 12
  {
  }

  /** The first form that shows the surface is the first field that does. */
  lemma FirstFormIsFirstField(lower: Lower, e: LexemeEntry, k: string) returns (i: nat)
    requires FormsShowing(lower, e, k) != []
    ensures FirstShownBy(lower, e, k, i)
    ensures FormsShowing(lower, e, k)[0] == Fields(e)[i].0 && e.forms.Get(Fields(e)[i].0) == Fields(e)[i].1
  {
    hide Fields, Shows, ShownBy;
    FormCount();
    i := FirstKept(FORM_ORDER, ShowsAt(lower, e, k));
    FieldsAreForms(e, i);
    forall j: nat | j <= i ensures ShownBy(lower, e, k, j) <==> ShowsAt(lower, e, k)(FORM_ORDER[j]) {
      ShownIsShows(lower, e, k, j);
    }
  }

  /** `r` reports field `i` of `e`. */
  ghost predicate Reports(r: LexemeResolution, e: LexemeEntry, i: nat) {
    && i < 12 && r.surface == Fields(e)[i].1 && r.caseNumber == Fields(e)[i].0
    && r.lemmaForm == e.lemmaForm && r.features == e.features && r.tier == e.tier && r.quality == e.quality
  }

  /** No lexeme that shows the surface outranks `e`, which shows it. */
  ghost predicate Unbeaten(lower: Lower, lexicon: seq<LexemeEntry>, e: LexemeEntry, k: string) {
    && e in lexicon && ShownSomewhere(lower, e, k)
    && forall other :: other in lexicon && ShownSomewhere(lower, other, k) ==> !Outranks(other, e)
  }

  lemma UnbeatenIsBest(lower: Lower, lexicon: seq<LexemeEntry>, e: LexemeEntry, k: string)
    ensures Unbeaten(lower, lexicon, e, k) <==> Best(lower, lexicon, e, k)
  {
    hide Hit, ShownSomewhere, Outranks, AtLeast;
    forall other
      ensures ShownSomewhere(lower, other, k) <==> Hit(lower, other, k)
      ensures Outranks(other, e) <==> !AtLeast(e, other)
    {
      ShownIsHit(lower, other, k);
      OutranksMeans(other, e);
    }
  }

  /** A resolved surface is the first field that shows it of a lexeme that outranks every other one showing it. */
  lemma ResolvedMeans(runtime: MorphologyRuntime, surface: string, r: LexemeResolution)
      returns (e: LexemeEntry, i: nat)
    requires runtime.Valid() && runtime.Lemmatize(surface) == Resolved(r)
    ensures var k := runtime.lower(surface);
            && FirstShownBy(runtime.lower, e, k, i) && Reports(r, e, i) && e in runtime.lexicon
            && forall other :: other in runtime.lexicon && ShownSomewhere(runtime.lower, other, k) && other != e
                               ==> Outranks(e, other)
  {
    hide Fields, FormsShowing, Hit, Shows, ShownBy, ShownSomewhere, Outranks, AtLeast;
    var lower, lexicon, k := runtime.lower, runtime.lexicon, runtime.lower(surface);
    assert CorrectAnswer(lower, lexicon, k, Resolved(r));
    e :| OnlyBest(lower, lexicon, e, k) && FormsShowing(lower, e, k) != []
         && r == Resolution(e, FormsShowing(lower, e, k)[0]);
    i := FirstFormIsFirstField(lower, e, k);
    FirstInRange(lower, e, k, i);
    forall other | other in lexicon && ShownSomewhere(lower, other, k) && other != e
      ensures Outranks(e, other)
    {
      ShownIsHit(lower, other, k);
      OnlyBestBeats(lower, lexicon, e, other, k);
      OutranksMeans(e, other);
    }
  }

  lemma FirstInRange(lower: Lower, e: LexemeEntry, k: string, i: nat)
    requires FirstShownBy(lower, e, k, i)
    ensures i < 12
  {
  }

  lemma OnlyBestBeats(lower: Lower, lexicon: seq<LexemeEntry>, e: LexemeEntry, other: LexemeEntry, k: string)
    requires OnlyBest(lower, lexicon, e, k) && other in lexicon && Hit(lower, other, k) && other != e
    ensures !AtLeast(other, e)
  {
    hide Hit;
    assert AtLeast(other, e) ==> Best(lower, lexicon, other, k);
  }

  /** A surface is unknown exactly when no field of any lexeme shows it. */
  lemma UnknownMeans(runtime: MorphologyRuntime, surface: string)
    requires runtime.Valid()
    ensures runtime.Lemmatize(surface) == Unknown
            <==> forall e :: e in runtime.lexicon ==> !ShownSomewhere(runtime.lower, e, runtime.lower(surface))
  {
    hide ShownSomewhere, Hit, Shows, FormsShowing, Scan;
    var lower, lexicon, k := runtime.lower, runtime.lexicon, runtime.lower(surface);
    assert CorrectAnswer(lower, lexicon, k, runtime.Lemmatize(surface));
    forall e ensures ShownSomewhere(lower, e, k) <==> Hit(lower, e, k) {
      ShownIsHit(lower, e, k);
    }
  }

  /** A candidate for one field of one lexeme. */
  ghost predicate StandsForField(c: LexemeCandidate, e: LexemeEntry, i: nat) {
    && i < 12 && c.surface == Fields(e)[i].1 && c.caseNumber == Fields(e)[i].0
    && c.entry == e && c.confidence == e.quality
  }

  lemma {:induction false} ScanMeans(lower: Lower, lexicon: seq<LexemeEntry>, k: string, c: LexemeCandidate)
    ensures c in Scan(lower, lexicon, k)
            <==> exists e, i: nat :: e in lexicon && ShownBy(lower, e, k, i) && StandsForField(c, e, i)
    decreases |lexicon|
  {
    hide FormsShowing, ScanEntry, ShownBy, StandsForField;
    if lexicon != [] {
      var init, last := lexicon[..|lexicon| - 1], lexicon[|lexicon| - 1];
      assert lexicon == init + [last];
      ScanMeans(lower, init, k, c);
      ScanEntryMeans(lower, last, k, c);
    }
  }

  lemma ScanEntryMeans(lower: Lower, e: LexemeEntry, k: string, c: LexemeCandidate)
    ensures c in ScanEntry(e, FormsShowing(lower, e, k))
            <==> exists i: nat :: ShownBy(lower, e, k, i) && StandsForField(c, e, i)
  {
    hide Fields, Shows, ShownBy, FormsShowing;
    var cns := FormsShowing(lower, e, k);
    FormCount();
    if c in ScanEntry(e, cns) {
      var j :| 0 <= j < |cns| && c == Candidate(e, cns[j]);
      assert cns[j] in cns;
      FormsShowingExact(lower, e, k, cns[j]);
      EveryFormIsIndexed(cns[j]);
      var i :| 0 <= i < |FORM_ORDER| && FORM_ORDER[i] == cns[j];
      FieldsAreForms(e, i);
      ShownIsShows(lower, e, k, i);
      assert ShownBy(lower, e, k, i) && StandsForField(c, e, i);
    }
    if i: nat :| ShownBy(lower, e, k, i) && StandsForField(c, e, i) {
      FieldsAreForms(e, i);
      ShownIsShows(lower, e, k, i);
      FormsShowingExact(lower, e, k, FORM_ORDER[i]);
      var j :| 0 <= j < |cns| && cns[j] == FORM_ORDER[i];
      assert ScanEntry(e, cns)[j] == c;
    }
  }

  /** A surface is ambiguous exactly when two lexemes that show it are unbeaten; the candidates are then all
      fields of all lexemes that show it. */
  lemma AmbiguousMeans(runtime: MorphologyRuntime, surface: string)
    requires runtime.Valid()
    ensures var lower, lexicon, k, answer := runtime.lower, runtime.lexicon, runtime.lower(surface),
                                             runtime.Lemmatize(surface);
            && (answer.Ambiguous?
                <==> exists a, b :: a != b && Unbeaten(lower, lexicon, a, k) && Unbeaten(lower, lexicon, b, k))
            && (answer.Ambiguous?
                ==> forall c :: c in answer.candidates
                      <==> exists e, i: nat :: e in lexicon && ShownBy(lower, e, k, i) && StandsForField(c, e, i))
  {
    hide Unbeaten, Best, Hit, Shows, ShownBy, StandsForField, FormsShowing, Scan;
    var lower, lexicon, k := runtime.lower, runtime.lexicon, runtime.lower(surface);
    var answer := runtime.Lemmatize(surface);
    assert CorrectAnswer(lower, lexicon, k, answer);
    forall e ensures Unbeaten(lower, lexicon, e, k) <==> Best(lower, lexicon, e, k) {
      UnbeatenIsBest(lower, lexicon, e, k);
    }
    BestIsHit(lower, lexicon, k);
    if answer.Ambiguous? {
      SameElements(answer.candidates, Scan(lower, lexicon, k));
      forall c
        ensures c in answer.candidates
                <==> exists e, i: nat :: e in lexicon && ShownBy(lower, e, k, i) && StandsForField(c, e, i)
      {
        ScanMeans(lower, lexicon, k, c);
      }
    }
  }

  lemma BestIsHit(lower: Lower, lexicon: seq<LexemeEntry>, k: string)
    ensures forall e :: Best(lower, lexicon, e, k) ==> e in lexicon && Hit(lower, e, k)
  {
    hide Hit;
  }

  /** The count is that of the lower-cased surfaces at which two different lexemes are unbeaten. */
  lemma CountMeans(runtime: MorphologyRuntime, surfaces: set<string>)
    requires runtime.Valid()
    requires forall k :: k in surfaces
               <==> exists a, b :: a != b && Unbeaten(runtime.lower, runtime.lexicon, a, k)
                                   && Unbeaten(runtime.lower, runtime.lexicon, b, k)
    ensures runtime.AmbiguousSurfaceCount() == |surfaces|
  {
    hide Unbeaten, Best, MorphologyRuntime.Valid, MorphologyRuntime.ContestedSurfaces;
    forall e, k ensures Unbeaten(runtime.lower, runtime.lexicon, e, k) <==> Best(runtime.lower, runtime.lexicon, e, k) {
      UnbeatenIsBest(runtime.lower, runtime.lexicon, e, k);
    }
    assert surfaces == runtime.ContestedSurfaces();
  }

  /** Of two lexemes that show a surface, one in a more trusted tier is the answer whatever the qualities. */
  lemma MoreTrustedWins(runtime: MorphologyRuntime, surface: string, a: LexemeEntry, b: LexemeEntry)
    requires runtime.Valid() && (runtime.lexicon == [a, b] || runtime.lexicon == [b, a])
    requires ShownSomewhere(runtime.lower, a, runtime.lower(surface))
    requires (a.tier == Curated && b.tier != Curated) || (a.tier == Reviewed && b.tier.AutoVerified?)
             || (a.tier != AutoCoverage && b.tier == AutoCoverage)
    ensures runtime.Lemmatize(surface).Resolved? && runtime.Lemmatize(surface).resolution.lemmaForm == a.lemmaForm
  {
    hide ShownSomewhere, ShownBy, StandsForField, Outranks, Fields, FirstShownBy, CorrectAnswer;
    hide MorphologyRuntime.Valid, MorphologyRuntime.Canonical, MorphologyRuntime.Lemmatize;
    TierOutranks(a, b);
    var answer := runtime.Lemmatize(surface);
    UnknownMeans(runtime, surface);
    AmbiguousMeans(runtime, surface);
    assert a in runtime.lexicon;
    assert !Unbeaten(runtime.lower, runtime.lexicon, b, runtime.lower(surface));
    if answer.Resolved? {
      var e, i := ResolvedMeans(runtime, surface, answer.resolution);
      assert e == b ==> Outranks(b, a);
    }
  }

  lemma TierOutranks(a: LexemeEntry, b: LexemeEntry)
    requires (a.tier == Curated && b.tier != Curated) || (a.tier == Reviewed && b.tier.AutoVerified?)
             || (a.tier != AutoCoverage && b.tier == AutoCoverage)
    ensures Outranks(a, b) && !Outranks(b, a)
  {
    OutranksMeans(a, b);
    OutranksMeans(b, a);
  }
}
