/** Lexemes, their inflected forms, and the answers a surface lookup can give. `lower` stands for the
    library's lower-casing; nothing here depends on what it does. */
module Lexicon {
  import opened StableSort

  type Lower = string -> string

  datatype SourceTier = Curated | Reviewed | AutoVerified | AutoCoverage {
    function TrustRank(): nat {
      match this
      case Curated => 4
      case Reviewed => 3
      case AutoVerified => 2
      case AutoCoverage => 1
    }
  }

  datatype PartOfSpeech =
    | Noun | Adjective | Verb | Adverb | Pronoun | Preposition | Conjunction | Interjection | Particle | Numeral | Other

  datatype Gender = Masculine | Feminine | Neuter | UnknownGender

  datatype Animacy = Animate | Inanimate | UnknownAnimacy

  datatype Case = Nominative | Genitive | Dative | Accusative | Instrumental | Prepositional

  datatype Number = Singular | Plural

  datatype CaseNumber = CaseNumber(case_: Case, number: Number)

  datatype GrammarFeatures = GrammarFeatures(pos: PartOfSpeech, gender: Gender, animacy: Animacy)

  datatype InflectionForms = InflectionForms(
    nomSg: string, nomPl: string, genSg: string, genPl: string, datSg: string, datPl: string,
    accSg: string, accPl: string, insSg: string, insPl: string, prepSg: string, prepPl: string)
  {
    function Get(cn: CaseNumber): string {
      match (cn.case_, cn.number)
      case (Nominative, Singular) => nomSg
      case (Nominative, Plural) => nomPl
      case (Genitive, Singular) => genSg
      case (Genitive, Plural) => genPl
      case (Dative, Singular) => datSg
      case (Dative, Plural) => datPl
      case (Accusative, Singular) => accSg
      case (Accusative, Plural) => accPl
      case (Instrumental, Singular) => insSg
      case (Instrumental, Plural) => insPl
      case (Prepositional, Singular) => prepSg
      case (Prepositional, Plural) => prepPl
    }
  }

  datatype LexemeEntry = LexemeEntry(
    lemmaForm: string, features: GrammarFeatures, forms: InflectionForms, tier: SourceTier, quality: real)

  datatype LexemeCandidate = LexemeCandidate(
    surface: string, entry: LexemeEntry, caseNumber: CaseNumber, confidence: real)

  datatype LexemeResolution = LexemeResolution(
    lemmaForm: string, surface: string, caseNumber: CaseNumber, features: GrammarFeatures,
    tier: SourceTier, quality: real)

  datatype MorphologyLookup =
    | Resolved(resolution: LexemeResolution)
    | Ambiguous(candidates: seq<LexemeCandidate>)
    | Unknown

  /** The order in which the forms of a lexeme are indexed. */
  const FORM_ORDER: seq<CaseNumber> := [
    CaseNumber(Nominative, Singular), CaseNumber(Nominative, Plural),
    CaseNumber(Genitive, Singular), CaseNumber(Genitive, Plural),
    CaseNumber(Dative, Singular), CaseNumber(Dative, Plural),
    CaseNumber(Accusative, Singular), CaseNumber(Accusative, Plural),
    CaseNumber(Instrumental, Singular), CaseNumber(Instrumental, Plural),
    CaseNumber(Prepositional, Singular), CaseNumber(Prepositional, Plural)]

  lemma EveryFormIsIndexed(cn: CaseNumber)
    ensures cn in FORM_ORDER
  {
    var c := match cn.case_
      case Nominative => 0
      case Genitive => 1
      case Dative => 2
      case Accusative => 3
      case Instrumental => 4
      case Prepositional => 5;
    var i := 2 * c + if cn.number.Singular? then 0 else 1;
    assert FORM_ORDER[i] == cn;
  }

  /** `e` shows the lower-cased surface `k` in the given case and number. */
  predicate Shows(lower: Lower, e: LexemeEntry, cn: CaseNumber, k: string) {
    e.forms.Get(cn) != "" && lower(e.forms.Get(cn)) == k
  }

  function ShowsAt(lower: Lower, e: LexemeEntry, k: string): CaseNumber -> bool {
    (cn: CaseNumber) => Shows(lower, e, cn, k)
  }

  /** The forms of `e` that show `k`, in index order. */
  function FormsShowing(lower: Lower, e: LexemeEntry, k: string): seq<CaseNumber> {
    Filter(FORM_ORDER, ShowsAt(lower, e, k))
  }

  function Resolution(e: LexemeEntry, cn: CaseNumber): LexemeResolution {
    LexemeResolution(e.lemmaForm, e.forms.Get(cn), cn, e.features, e.tier, e.quality)
  }

  function Candidate(e: LexemeEntry, cn: CaseNumber): LexemeCandidate {
    LexemeCandidate(e.forms.Get(cn), e, cn, e.quality)
  }

  // ---------- The brute-force answer ----------

  ghost predicate Hit(lower: Lower, e: LexemeEntry, k: string) {
    exists cn :: Shows(lower, e, cn, k)
  }

  /** Higher trust wins; quality decides between equal trust. */
  predicate AtLeast(a: LexemeEntry, b: LexemeEntry) {
    a.tier.TrustRank() > b.tier.TrustRank() || (a.tier == b.tier && a.quality >= b.quality)
  }

  /** Among the lexemes that show `k`, `e` is one of the best. */
  ghost predicate Best(lower: Lower, lexicon: seq<LexemeEntry>, e: LexemeEntry, k: string) {
    && e in lexicon && Hit(lower, e, k)
    && forall other :: other in lexicon && Hit(lower, other, k) ==> AtLeast(e, other)
  }

  /** Every candidate a scan of all forms of all lexemes turns up. */
  function Scan(lower: Lower, lexicon: seq<LexemeEntry>, k: string): seq<LexemeCandidate> {
    if lexicon == [] then []
    else
      var n := |lexicon| - 1;
      Scan(lower, lexicon[..n], k) + ScanEntry(lexicon[n], FormsShowing(lower, lexicon[n], k))
  }

  function ScanEntry(e: LexemeEntry, cns: seq<CaseNumber>): seq<LexemeCandidate> {
    seq(|cns|, i requires 0 <= i < |cns| => Candidate(e, cns[i]))
  }

  /** What a lookup must answer, said without any index: unknown when no lexeme shows `k`; resolved to
      the one best lexeme, in the first of its forms that shows `k`; otherwise ambiguous between all
      the candidates a full scan finds. */
  ghost predicate CorrectAnswer(lower: Lower, lexicon: seq<LexemeEntry>, k: string, answer: MorphologyLookup) {
    match answer
    case Unknown => forall e :: e in lexicon ==> !Hit(lower, e, k)
    case Resolved(r) =>
      exists e :: OnlyBest(lower, lexicon, e, k) && FormsShowing(lower, e, k) != []
                  && r == Resolution(e, FormsShowing(lower, e, k)[0])
    case Ambiguous(candidates) =>
      && (exists a, b :: a != b && Best(lower, lexicon, a, k) && Best(lower, lexicon, b, k))
      && multiset(candidates) == multiset(Scan(lower, lexicon, k))
  }

  ghost predicate OnlyBest(lower: Lower, lexicon: seq<LexemeEntry>, e: LexemeEntry, k: string) {
    Best(lower, lexicon, e, k) && forall other :: Best(lower, lexicon, other, k) ==> other == e
  }

  /** A best lexeme exists as soon as any lexeme shows the surface. */
  lemma {:induction false} BestExists(lower: Lower, lexicon: seq<LexemeEntry>, k: string)
    requires exists e :: e in lexicon && Hit(lower, e, k)
    ensures exists e :: Best(lower, lexicon, e, k)
    decreases |lexicon|
  {
    hide Hit;
    var n := |lexicon| - 1;
    var init, last := lexicon[..n], lexicon[n];
    assert lexicon == init + [last];
    if exists e :: e in init && Hit(lower, e, k) {
      BestExists(lower, init, k);
      var b :| Best(lower, init, b, k);
      if !Hit(lower, last, k) || AtLeast(b, last) {
        assert Best(lower, lexicon, b, k);
      } else {
        assert Best(lower, lexicon, last, k);
      }
    } else {
      assert Best(lower, lexicon, last, k);
    }
  }

  lemma OnlyBestShows(lower: Lower, e: LexemeEntry, k: string)
    requires Hit(lower, e, k)
    ensures FormsShowing(lower, e, k) != []
  {
    var cn :| Shows(lower, e, cn, k);
    EveryFormIsIndexed(cn);
    FilterMember(FORM_ORDER, ShowsAt(lower, e, k), cn);
  }

  /** There always is a correct answer. */
  lemma CorrectAnswerExists(lower: Lower, lexicon: seq<LexemeEntry>, k: string) returns (answer: MorphologyLookup)
    ensures CorrectAnswer(lower, lexicon, k, answer)
  {
    hide Hit, FormsShowing, Scan;
    if exists e :: e in lexicon && Hit(lower, e, k) {
      BestExists(lower, lexicon, k);
      var best :| Best(lower, lexicon, best, k);
      if OnlyBest(lower, lexicon, best, k) {
        OnlyBestShows(lower, best, k);
        answer := Resolved(Resolution(best, FormsShowing(lower, best, k)[0]));
      } else {
        answer := Ambiguous(Scan(lower, lexicon, k));
      }
    } else {
      answer := Unknown;
    }
  }

  ghost predicate SameKind(a: MorphologyLookup, b: MorphologyLookup) {
    match (a, b)
    case (Resolved(r), Resolved(s)) => r == s
    case (Ambiguous(p), Ambiguous(q)) => multiset(p) == multiset(q)
    case (Unknown, Unknown) => true
    case _ => false
  }

  /** The brute-force answer is unique up to the order of ambiguous candidates. */
  lemma CorrectAnswerUnique(
      lower: Lower, lexicon: seq<LexemeEntry>, k: string, a: MorphologyLookup, b: MorphologyLookup)
    requires CorrectAnswer(lower, lexicon, k, a) && CorrectAnswer(lower, lexicon, k, b)
    ensures SameKind(a, b)
  {
    hide Hit, FormsShowing;
  }

  // ---------- Independence of order ----------

  lemma ScanSnoc(lower: Lower, s: seq<LexemeEntry>, e: LexemeEntry, k: string)
    ensures Scan(lower, s + [e], k) == Scan(lower, s, k) + ScanEntry(e, FormsShowing(lower, e, k))
  {
    hide FormsShowing, ScanEntry;
    assert (s + [e])[..|s|] == s;
  }

  lemma {:induction false} ScanSplit(lower: Lower, s: seq<LexemeEntry>, t: seq<LexemeEntry>, k: string)
    ensures Scan(lower, s + t, k) == Scan(lower, s, k) + Scan(lower, t, k)
    decreases |t|
  {
    if t == [] {
      assert s + t == s;
    } else {
      hide Scan, FormsShowing, ScanEntry;
      var init, last := t[..|t| - 1], t[|t| - 1];
      assert t == init + [last] && s + t == s + init + [last];
      ScanSplit(lower, s, init, k);
      ScanSnoc(lower, s + init, last, k);
      ScanSnoc(lower, init, last, k);
    }
  }

  lemma ScanMiddle(lower: Lower, before: seq<LexemeEntry>, e: LexemeEntry, after: seq<LexemeEntry>, k: string)
    ensures multiset(Scan(lower, before + [e] + after, k))
            == multiset(Scan(lower, before + after, k)) + multiset(Scan(lower, [e], k))
  {
    hide Scan;
    ScanSplit(lower, before, after, k);
    ScanSplit(lower, before + [e], after, k);
    ScanSplit(lower, before, [e], k);
  }

  lemma {:induction false} ScanForgetsOrder(lower: Lower, s: seq<LexemeEntry>, t: seq<LexemeEntry>, k: string)
    requires multiset(s) == multiset(t)
    ensures multiset(Scan(lower, s, k)) == multiset(Scan(lower, t, k))
    decreases |s|
  {
    hide Scan;
    if s == [] {
      assert |t| == |multiset(t)| == 0;
    } else {
      var e, rest := s[0], s[1..];
      assert s == [e] + rest;
      var before, after := TakeOut(s, t);
      ScanForgetsOrder(lower, rest, before + after, k);
      ScanSplit(lower, [e], rest, k);
      ScanMiddle(lower, before, e, after, k);
    }
  }

  /** Rearranging the lexicon leaves every correct answer correct. */
  lemma AnswerForgetsOrder(
      lower: Lower, s: seq<LexemeEntry>, t: seq<LexemeEntry>, k: string, answer: MorphologyLookup)
    requires multiset(s) == multiset(t) && CorrectAnswer(lower, s, k, answer)
    ensures CorrectAnswer(lower, t, k, answer)
  {
    hide Hit, FormsShowing, Scan;
    SameElements(s, t);
    ScanForgetsOrder(lower, s, t, k);
    forall e
      ensures Best(lower, s, e, k) <==> Best(lower, t, e, k)
    {
    }
    if answer.Resolved? {
      var e :| OnlyBest(lower, s, e, k) && FormsShowing(lower, e, k) != []
               && answer.resolution == Resolution(e, FormsShowing(lower, e, k)[0]);
      assert OnlyBest(lower, t, e, k);
    }
  }
}
