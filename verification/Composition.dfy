/** `types_compose`: can the output of one function feed the input of another? */
module Composition {
  import opened Options
  import opened Types

  datatype ComposeResult =
    | Exact | GenericMatch | Wildcard | Unwrap | OptionUnwrap | RefUnwrap | RefBorrow | NoMatch
  {
    predicate CanCompose() {
      !NoMatch?
    }

    /** Good enough to unify two arguments of the same generic. */
    predicate Unifies() {
      Exact? || Wildcard? || GenericMatch?
    }

    function Confidence(): real {
      match this
      case Exact => 1.0
      case GenericMatch => 0.9
      case RefBorrow => 0.85
      case Unwrap => 0.8
      case RefUnwrap => 0.75
      case OptionUnwrap => 0.5
      case Wildcard => 0.3
      case NoMatch => 0.0
    }

    function Label(): string {
      match this
      case Exact => "exact"
      case GenericMatch => "generic"
      case Unwrap => "unwrap"
      case OptionUnwrap => "option-unwrap"
      case RefUnwrap => "ref-unwrap"
      case RefBorrow => "ref-borrow"
      case Wildcard => "wildcard"
      case NoMatch => "no-match"
    }
  }

  function TypesCompose(producer: TypeInfo, consumer: TypeInfo): ComposeResult
    decreases producer, consumer
  {
    if producer == consumer then Exact
    else if producer.Unknown? || consumer.Unknown? then Wildcard
    else if IsTypeParam(consumer) || IsTypeParam(producer) then GenericMatch
    else if producer.Reference? && TypesCompose(producer.inner, consumer).CanCompose() then RefUnwrap
    else if consumer.Reference? && TypesCompose(producer, consumer.inner).CanCompose() then RefBorrow
    else if
      && producer.Generic? && consumer.Generic?
      && producer.base == consumer.base && |producer.args| == |consumer.args|
      && forall i :: 0 <= i < |producer.args| ==> TypesCompose(producer.args[i], consumer.args[i]).Unifies()
    then GenericMatch
    else if producer.Generic? && consumer.Generic? && producer.base == "Vec"
            && (consumer.base == "Iterator" || consumer.base == "IntoIterator")
    then Unwrap
    else if producer.Generic? && consumer.Slice? && producer.base == "Vec" && |producer.args| == 1
            && TypesCompose(producer.args[0], consumer.element).CanCompose()
    then Unwrap
    else if producer.Generic? && consumer.Generic?
            && (producer.base == "Iterator" || producer.base == "IntoIterator")
            && (consumer.base == "Vec" || consumer.base == "Slice")
    then Unwrap
    else if producer.Generic? && consumer.Generic? && producer.base == "Vec"
            && consumer.base in ["VecDeque", "HashSet", "BTreeSet", "LinkedList"]
    then Unwrap
    else if producer.Generic? && consumer.Generic? && producer.base == "Result" && consumer.base == "Option"
            && |producer.args| == 2 && |consumer.args| == 1
            && TypesCompose(producer.args[0], consumer.args[0]).CanCompose()
    then Unwrap
    else if producer.Generic? && producer.base == "Option" && |producer.args| == 1
            && TypesCompose(producer.args[0], consumer).CanCompose()
    then OptionUnwrap
    else if producer.Generic? && producer.base == "Result" && producer.args != []
            && TypesCompose(producer.args[0], consumer).CanCompose()
    then OptionUnwrap
    else if producer.Tuple?
            && exists i :: 0 <= i < |producer.items| && TypesCompose(producer.items[i], consumer).CanCompose()
    then Unwrap
    else if producer.Array? && consumer.Slice?
            && TypesCompose(producer.element, consumer.element).CanCompose()
    then Unwrap
    else if producer.Array? && consumer.Generic? && consumer.base == "Vec" && |consumer.args| == 1
            && TypesCompose(producer.element, consumer.args[0]).CanCompose()
    then Unwrap
    else if consumer.TraitBound? && producer.BaseName() == consumer.name then GenericMatch
    else if consumer.AssociatedType? && consumer.traitName == "Iterator" && consumer.typeName == "Item"
    then GenericMatch
    else if consumer.TraitObject? && producer.BaseName() == consumer.traitName then GenericMatch
    else NoMatch
  }

  predicate Composes(producer: TypeInfo, consumer: TypeInfo) {
    TypesCompose(producer, consumer).CanCompose()
  }

  // ---------- A declarative account of composability ----------

  /** The type under all outer references. */
  function Core(t: TypeInfo): (r: TypeInfo)
    ensures !r.Reference?
  {
    if t.Reference? then Core(t.inner) else t
  }

  /** The one layer a producer may shed: a reference, an `Option`, the `Ok` side of a `Result`, or
      everything in a tuple but one element. */
  ghost predicate Sheds(p: TypeInfo, q: TypeInfo) {
    || (p.Reference? && q == p.inner)
    || (p.Generic? && p.base == "Option" && |p.args| == 1 && q == p.args[0])
    || (p.Generic? && p.base == "Result" && p.args != [] && q == p.args[0])
    || (p.Tuple? && q in p.items)
  }

  ghost predicate PeelsTo(p: TypeInfo, q: TypeInfo)
    decreases p
  {
    p == q || exists r :: r < p && Sheds(p, r) && PeelsTo(r, q)
  }

  /** One generic on both sides, and every argument is the same, a wildcard or matched generically. */
  ghost predicate SameGeneric(p: TypeInfo, c: TypeInfo) {
    && p.Generic? && c.Generic? && p.base == c.base && |p.args| == |c.args|
    && forall i :: 0 <= i < |p.args|
                   ==> var verdict := TypesCompose(p.args[i], c.args[i]);
                       verdict.Exact? || verdict.Wildcard? || verdict.GenericMatch?
  }

  /** One standard container turns into another. */
  ghost predicate Converts(p: TypeInfo, c: TypeInfo) {
    && p.Generic?
    && (|| (c.Slice? && p.base == "Vec" && |p.args| == 1 && Composes(p.args[0], c.element))
        || (c.Generic?
            && (|| (p.base == "Vec"
                    && c.base in {"Iterator", "IntoIterator", "VecDeque", "HashSet", "BTreeSet", "LinkedList"})
                || (p.base in {"Iterator", "IntoIterator"} && c.base in {"Vec", "Slice"})
                || (p.base == "Result" && c.base == "Option" && |p.args| == 2 && |c.args| == 1
                    && Composes(p.args[0], c.args[0])))))
  }

  /** The elements of an array compose with those of a slice or a vector. */
  ghost predicate Lends(p: TypeInfo, c: TypeInfo) {
    && p.Array?
    && (|| (c.Slice? && Composes(p.element, c.element))
        || (c.Generic? && c.base == "Vec" && |c.args| == 1 && Composes(p.element, c.args[0])))
  }

  /** The consumer asks for a trait by the producer's name, or for the item of any iterator. */
  ghost predicate Names(p: TypeInfo, c: TypeInfo) {
    || (c.TraitBound? && c.name == p.BaseName())
    || (c.TraitObject? && c.traitName == p.BaseName())
    || c == AssociatedType("Iterator", "Item")
  }

  /** `q` fits the reference-free consumer `k` as it stands, shedding nothing. */
  ghost predicate Fits(q: TypeInfo, k: TypeInfo) {
    || q == k || q.Unknown? || k.Unknown? || IsTypeParam(q) || IsTypeParam(k)
    || SameGeneric(q, k) || Converts(q, k) || Lends(q, k) || Names(q, k)
  }

  // ---------- Which verdict ----------

  /** No rule about equality, wildcards, parameters or references decides the pair. */
  ghost predicate Undecided(p: TypeInfo, c: TypeInfo) {
    && p != c && !p.Unknown? && !c.Unknown? && !IsTypeParam(p) && !IsTypeParam(c)
    && !(p.Reference? && Composes(p.inner, c)) && !(c.Reference? && Composes(p, c.inner))
  }

  /** The value inside an `Option` or on the `Ok` side of a `Result` composes. */
  ghost predicate Opens(p: TypeInfo, c: TypeInfo) {
    && p.Generic? && ((p.base == "Option" && |p.args| == 1) || (p.base == "Result" && p.args != []))
    && Composes(p.args[0], c)
  }

  /** An item of a tuple, or the elements of an array, compose. */
  ghost predicate Yields(p: TypeInfo, c: TypeInfo) {
    (p.Tuple? && exists i :: 0 <= i < |p.items| && Composes(p.items[i], c)) || Lends(p, c)
  }

  lemma SameGenericVerdict(p: TypeInfo, c: TypeInfo)
    requires Undecided(p, c) && SameGeneric(p, c)
    ensures TypesCompose(p, c) == GenericMatch
  {
  }

  lemma GenericVerdict(p: TypeInfo, c: TypeInfo)
    requires Undecided(p, c) && !SameGeneric(p, c) && p.Generic?
    ensures TypesCompose(p, c)
            == if Converts(p, c) then Unwrap else if Opens(p, c) then OptionUnwrap
               else if Names(p, c) then GenericMatch else NoMatch
  {
  }

  lemma OtherVerdict(p: TypeInfo, c: TypeInfo)
    requires Undecided(p, c) && !p.Generic?
    ensures TypesCompose(p, c) == if Yields(p, c) then Unwrap else if Names(p, c) then GenericMatch else NoMatch
  {
  }

  lemma LateVerdicts(p: TypeInfo, c: TypeInfo)
    requires Undecided(p, c)
    ensures TypesCompose(p, c)
            == if SameGeneric(p, c) then GenericMatch
               else if Converts(p, c) || Yields(p, c) then Unwrap
               else if Opens(p, c) then OptionUnwrap
               else if Names(p, c) then GenericMatch
               else NoMatch
  {
    hide TypesCompose, Names;
    if SameGeneric(p, c) {
      SameGenericVerdict(p, c);
    } else if p.Generic? {
      GenericVerdict(p, c);
    } else {
      OtherVerdict(p, c);
    }
  }

  lemma EarlyVerdicts(p: TypeInfo, c: TypeInfo)
    ensures TypesCompose(p, c).Exact? <==> p == c
    ensures TypesCompose(p, c).Wildcard? <==> p != c && (p.Unknown? || c.Unknown?)
    ensures TypesCompose(p, c).RefUnwrap?
            <==> p != c && p.Reference? && !c.Unknown? && !IsTypeParam(c) && Composes(p.inner, c)
    ensures TypesCompose(p, c).RefBorrow?
            <==> && p != c && c.Reference? && !p.Unknown? && !IsTypeParam(p)
                 && !(p.Reference? && Composes(p.inner, c)) && Composes(p, c.inner)
    ensures p != c && !p.Unknown? && !c.Unknown? && (IsTypeParam(p) || IsTypeParam(c))
            ==> TypesCompose(p, c) == GenericMatch
  {
  }

  // ---------- Peeling ----------

  lemma ShedsIsSmaller(p: TypeInfo, q: TypeInfo)
    requires Sheds(p, q)
    ensures q < p
  {
    if p.Tuple? {
      var i :| 0 <= i < |p.items| && p.items[i] == q;
    }
  }

  /** One unfolding of the test against a consumer that is not a reference. */
  lemma ComposesStep(p: TypeInfo, k: TypeInfo)
    requires !k.Reference?
    ensures Composes(p, k) <==> Fits(p, k) || exists q :: Sheds(p, q) && Composes(q, k)
  {
    EarlyVerdicts(p, k);
    if Undecided(p, k) {
      LateVerdicts(p, k);
    }
    hide TypesCompose, SameGeneric, Converts, Lends, Names;
    if p.Tuple? && Yields(p, k) && !Lends(p, k) {
      var i :| 0 <= i < |p.items| && Composes(p.items[i], k);
      assert Sheds(p, p.items[i]);
    } else if Opens(p, k) {
      assert Sheds(p, p.args[0]);
    } else if p.Reference? {
      assert Sheds(p, p.inner);
    }
    if q :| Sheds(p, q) && Composes(q, k) {
      if p.Tuple? {
        var i :| 0 <= i < |p.items| && p.items[i] == q;
      }
    }
  }

  /** References around the consumer never matter. */
  lemma {:induction false} BorrowTransparent(p: TypeInfo, c: TypeInfo)
    requires c.Reference?
    ensures Composes(p, c) <==> Composes(p, c.inner)
    decreases p, c
  {
    if p == c {
      assert Composes(p.inner, c.inner);
      ComposesWhenShed(p, p.inner, c.inner);
    } else if Composes(p, c) && !Composes(p, c.inner) {
      if p.Reference? && Composes(p.inner, c) {
        BorrowTransparent(p.inner, c);
        ComposesWhenShed(p, p.inner, c.inner);
      } else if p.Tuple? {
        var i :| 0 <= i < |p.items| && Composes(p.items[i], c);
        BorrowTransparent(p.items[i], c);
        ComposesWhenShed(p, p.items[i], c.inner);
      } else {
        BorrowTransparent(p.args[0], c);
        ComposesWhenShed(p, p.args[0], c.inner);
      }
    }
  }

  /** Wrapping a composable producer in a reference, an `Option`, a `Result` or a tuple keeps it composable,
      whatever the consumer. */
  lemma {:induction false} ComposesWhenShed(p: TypeInfo, q: TypeInfo, c: TypeInfo)
    requires Sheds(p, q) && Composes(q, c)
    ensures Composes(p, c)
  {
    if p.Tuple? {
      var i :| 0 <= i < |p.items| && p.items[i] == q;
    }
  }

  lemma {:induction false} ComposesWithCore(p: TypeInfo, c: TypeInfo)
    ensures Composes(p, c) <==> Composes(p, Core(c))
    decreases c
  {
    if c.Reference? {
      BorrowTransparent(p, c);
      ComposesWithCore(p, c.inner);
    }
  }

  /** The account: a producer composes with a consumer exactly when, after shedding some of its outer
      layers, it fits what is under the consumer's references. */
  lemma {:induction false} ComposesIffPeelFits(p: TypeInfo, c: TypeInfo)
    ensures Composes(p, c) <==> exists q :: PeelsTo(p, q) && Fits(q, Core(c))
    decreases p
  {
    var k := Core(c);
    ComposesWithCore(p, c);
    ComposesStep(p, k);
    forall r | Sheds(p, r)
      ensures r < p
      ensures Composes(r, k) <==> exists q :: PeelsTo(r, q) && Fits(q, k)
    {
      ShedsIsSmaller(p, r);
      ComposesIffPeelFits(r, k);
    }
    if Composes(p, k) {
      if Fits(p, k) {
        assert PeelsTo(p, p);
      } else {
        var r :| Sheds(p, r) && Composes(r, k);
        var q :| PeelsTo(r, q) && Fits(q, k);
        assert PeelsTo(p, q);
      }
    }
    if q :| PeelsTo(p, q) && Fits(q, k) {
      if p != q {
        var r :| r < p && Sheds(p, r) && PeelsTo(r, q);
        assert Composes(r, k);
      }
    }
  }

  /** A trait constraint that happens to be named like the printed name of a reference. */
  predicate NamedRef(k: TypeInfo) {
    (k.TraitBound? && k.name == "ref") || (k.TraitObject? && k.traitName == "ref")
  }

  /** References around the producer matter only for a trait literally called "ref". */
  lemma {:induction false} DerefTransparent(p: TypeInfo, c: TypeInfo)
    requires p.Reference?
    ensures Composes(p, c) <==> Composes(p.inner, c) || NamedRef(Core(c))
  {
    ComposesWithCore(p, c);
    ComposesWithCore(p.inner, c);
    ComposesStep(p, Core(c));
    ComposesStep(p.inner, Core(c));
    assert Sheds(p, p.inner);
  }

  /** Reference transparency at any depth on both sides. */
  lemma {:induction false} ReferencesTransparent(p: TypeInfo, c: TypeInfo)
    ensures Composes(p, c) <==> Composes(Core(p), Core(c)) || (p.Reference? && NamedRef(Core(c)))
    decreases p
  {
    ComposesWithCore(p, c);
    if p.Reference? {
      DerefTransparent(p, c);
      ReferencesTransparent(p.inner, c);
    }
  }

  /** The exact effect of wrapping the producer in a tuple. */
  lemma {:induction false} TupleComposes(items: seq<TypeInfo>, c: TypeInfo)
    ensures Composes(Tuple(items), c)
            <==> Fits(Tuple(items), Core(c)) || exists i :: 0 <= i < |items| && Composes(items[i], c)
  {
    var p, k := Tuple(items), Core(c);
    ComposesWithCore(p, c);
    ComposesStep(p, k);
    forall i | 0 <= i < |items|
      ensures Composes(items[i], c) <==> Composes(items[i], k)
      ensures Sheds(p, items[i])
    {
      ComposesWithCore(items[i], c);
    }
  }

  /** The exact effect of wrapping the producer in an `Option`. */
  lemma {:induction false} OptionComposes(t: TypeInfo, c: TypeInfo)
    ensures Composes(Generic("Option", [t]), c) <==> Fits(Generic("Option", [t]), Core(c)) || Composes(t, c)
  {
    var p, k := Generic("Option", [t]), Core(c);
    ComposesWithCore(p, c);
    ComposesWithCore(t, c);
    ComposesStep(p, k);
    assert Sheds(p, t);
  }

  /** The exact effect of making the producer the `Ok` side of a `Result`. */
  lemma {:induction false} ResultComposes(ok: TypeInfo, rest: seq<TypeInfo>, c: TypeInfo)
    ensures Composes(Generic("Result", [ok] + rest), c)
            <==> Fits(Generic("Result", [ok] + rest), Core(c)) || Composes(ok, c)
  {
    var p, k := Generic("Result", [ok] + rest), Core(c);
    ComposesWithCore(p, c);
    ComposesWithCore(ok, c);
    ComposesStep(p, k);
    assert Sheds(p, ok);
  }

  /** Numeric widening is not a composition: under whatever references, primitives compose only with
      themselves. */
  lemma NoNumericWidening(p: TypeInfo, c: TypeInfo)
    requires Core(p).Primitive? && Core(c).Primitive?
    ensures Composes(p, c) <==> Core(p) == Core(c)
  {
    ReferencesTransparent(p, c);
  }

  /** Exactly when each verdict is given, and how they rank. */
  lemma VerdictMeaning(p: TypeInfo, c: TypeInfo)
    ensures TypesCompose(p, c).Exact? <==> p == c
    ensures TypesCompose(p, c).Wildcard? <==> p != c && (p.Unknown? || c.Unknown?)
    ensures TypesCompose(p, c).RefUnwrap?
            <==> p != c && p.Reference? && !c.Unknown? && !IsTypeParam(c) && Composes(p.inner, c)
    ensures TypesCompose(p, c).RefBorrow?
            <==> && p != c && c.Reference? && !p.Unknown? && !IsTypeParam(p)
                 && !(p.Reference? && Composes(p.inner, c)) && Composes(p, c.inner)
    ensures TypesCompose(p, c).Unwrap?
            <==> Undecided(p, c) && !SameGeneric(p, c) && (Converts(p, c) || Yields(p, c))
    ensures TypesCompose(p, c).OptionUnwrap?
            <==> Undecided(p, c) && !SameGeneric(p, c) && !Converts(p, c) && Opens(p, c)
    ensures TypesCompose(p, c).GenericMatch?
            <==> || (p != c && !p.Unknown? && !c.Unknown? && (IsTypeParam(p) || IsTypeParam(c)))
                 || (Undecided(p, c) && SameGeneric(p, c))
                 || (Undecided(p, c) && Names(p, c) && !Opens(p, c) && !Yields(p, c))
    ensures 0.0 <= TypesCompose(p, c).Confidence() <= 1.0
    ensures Composes(p, c) <==> TypesCompose(p, c).Confidence() >= 0.3
    ensures TypesCompose(p, c).Confidence() == 1.0 <==> p == c
  {
    EarlyVerdicts(p, c);
    hide TypesCompose;
    if Undecided(p, c) {
      LateVerdicts(p, c);
    }
  }

  // ---------- Names ----------

  /** A type parameter, declared or suggested by a short upper-case name, matches everything on either side. */
  lemma ParamMatchesAll(name: string, bounds: seq<TypeInfo>, t: TypeInfo)
    requires t != Unknown
    ensures t != TypeParam(name, bounds)
            ==> TypesCompose(TypeParam(name, bounds), t) == TypesCompose(t, TypeParam(name, bounds)) == GenericMatch
    ensures (|name| == 1 || |name| == 2) && IS_UPPERCASE(name[0]) && t != Generic(name, [])
            ==> TypesCompose(Generic(name, []), t) == TypesCompose(t, Generic(name, [])) == GenericMatch
  {
  }

  /** Only a bare name or a declared parameter matches everything: a name with arguments, of whatever length,
      matches no primitive type unless its first argument does and is inside an `Option` or a `Result`. */
  lemma ArgumentsAreNoParam(base: string, args: seq<TypeInfo>, k: PrimitiveType)
    requires args != []
    ensures Composes(Generic(base, args), Primitive(k))
            <==> ((base == "Option" && |args| == 1) || base == "Result") && Composes(args[0], Primitive(k))
    ensures !Composes(Primitive(k), Generic(base, args))
  {
    var p, c := Generic(base, args), Primitive(k);
    assert Undecided(p, c) && Undecided(c, p);
    GenericVerdict(p, c);
    OtherVerdict(c, p);
    hide TypesCompose;
  }

  /** Two different bare names of three or more characters compose only where a standard container of any
      elements turns into another. */
  lemma BareNamesCompose(a: string, b: string)
    requires a != b && |a| >= 3 && |b| >= 3
    ensures TypesCompose(Generic(a, []), Generic(b, []))
            == if || (a == "Vec" && b in {"Iterator", "IntoIterator", "VecDeque", "HashSet", "BTreeSet", "LinkedList"})
                  || (a in {"Iterator", "IntoIterator"} && b in {"Vec", "Slice"})
               then Unwrap else NoMatch
  {
    var p, c := Generic(a, []), Generic(b, []);
    assert Undecided(p, c);
    GenericVerdict(p, c);
  }

  /** Which trait a producer that sheds nothing satisfies by name: its keyword, its base, or the word for its
      form. */
  lemma SatisfiesByName(p: TypeInfo, name: string, bounds: seq<TypeInfo>, lifetime: Option<string>)
    requires !IsTypeParam(p) && p != Unknown && !p.Reference? && !p.Tuple?
    requires p.Generic? ==> p.base != "Option" && p.base != "Result"
    requires p != TraitBound(name, bounds) && p != TraitObject(name, lifetime)
    ensures Composes(p, TraitObject(name, lifetime)) <==> Composes(p, TraitBound(name, bounds))
    ensures Composes(p, TraitBound(name, bounds))
            <==> match p
                 case Primitive(k) => name == k.AsStr()
                 case Generic(base, _) => name == base
                 case Function(_, _) => name == "fn"
                 case TraitBound(other, _) => name == other
                 case Lifetime(_) => name == "lifetime"
                 case Array(_, _) => name == "array"
                 case Slice(_) => name == "slice"
                 case AssociatedType(other, _) => name == other
                 case TraitObject(other, _) => name == other
                 case _ => false
  {
    var bound, dyn := TraitBound(name, bounds), TraitObject(name, lifetime);
    assert Undecided(p, bound) && Undecided(p, dyn);
    LateVerdicts(p, bound);
    LateVerdicts(p, dyn);
    hide TypesCompose;
  }

  /** A tuple satisfies the trait "tuple", and any item of it another trait. */
  lemma TupleSatisfies(items: seq<TypeInfo>, name: string, bounds: seq<TypeInfo>)
    ensures Composes(Tuple(items), TraitBound(name, bounds))
            <==> name == "tuple" || exists i :: 0 <= i < |items| && Composes(items[i], TraitBound(name, bounds))
  {
    TupleComposes(items, TraitBound(name, bounds));
    hide TypesCompose;
  }

  /** The confidence of every verdict: the better one is the more confident. */
  lemma ConfidenceOfVerdicts(r: ComposeResult, s: ComposeResult)
    ensures 100.0 * r.Confidence()
            == match r
               case Exact => 100.0 case GenericMatch => 90.0 case RefBorrow => 85.0 case Unwrap => 80.0
               case RefUnwrap => 75.0 case OptionUnwrap => 50.0 case Wildcard => 30.0 case NoMatch => 0.0
    ensures r.Confidence() == s.Confidence() <==> r == s
  {
  }
}
