/** The registry of code atoms and relations, with the two indexes kept beside the edge list. */
module CodeGraphs {
  import opened Options
  import opened Types
  import opened StableSort
  import opened KeyOrder
  import Text

  type CodeAtomId = string

  datatype CodeLang = Rust | Python | TypeScript | Haskell {
    function AsStr(): string {
      match this
      case Rust => "rust"
      case Python => "python"
      case TypeScript => "typescript"
      case Haskell => "haskell"
    }
  }

  datatype CodeAtomKind =
    | FunctionAtom | MethodAtom | TraitAtom | StructAtom | EnumAtom
    | TypeAliasAtom | MacroAtom | ModuleAtom | ConceptAtom | PatternAtom

  datatype CodeRelationType =
    | RelCalls | RelReturns | RelRequires | RelImplements | RelAccepts | RelAlternative
    | RelComposes | RelTranslatesTo | RelDependsOn | RelVariant | RelBroader | RelNarrower

  datatype TypedParam = TypedParam(name: string, ty: TypeInfo, isSelf: bool, isMut: bool)

  datatype CodeAtom = CodeAtom(
    id: CodeAtomId,
    lang: CodeLang,
    kind: CodeAtomKind,
    name: string,
    moduleName: string,
    signature: string,
    params: seq<TypedParam>,
    returnType: Option<TypeInfo>)

  datatype CodeRelation = CodeRelation(
    from: CodeAtomId,
    to: CodeAtomId,
    relType: CodeRelationType,
    lang: CodeLang,
    note: string)

  // ---------- Indexes ----------

  type Index = map<CodeAtomId, seq<nat>>

  function Push(index: Index, key: CodeAtomId, position: nat): Index {
    index[key := (if key in index then index[key] else []) + [position]]
  }

  function SourceOf(r: CodeRelation): CodeAtomId { r.from }

  function TargetOf(r: CodeRelation): CodeAtomId { r.to }

  /** The index rebuilt from scratch out of the edge list. */
  function Rebuilt(edges: seq<CodeRelation>, end: CodeRelation -> CodeAtomId): Index {
    if edges == [] then map[]
    else
      var n := |edges| - 1;
      Push(Rebuilt(edges[..n], end), end(edges[n]), n)
  }

  /** Positions that exist, looked up in order. */
  function Pick(edges: seq<CodeRelation>, positions: seq<nat>): seq<CodeRelation> {
    if positions == [] then []
    else
      var i := positions[|positions| - 1];
      Pick(edges, positions[..|positions| - 1]) + if i < |edges| then [edges[i]] else []
  }

  function LookUp(edges: seq<CodeRelation>, index: Index, id: CodeAtomId): seq<CodeRelation> {
    if id in index then Pick(edges, index[id]) else []
  }

  lemma {:induction false} RebuiltInRange(edges: seq<CodeRelation>, end: CodeRelation -> CodeAtomId, id: CodeAtomId)
    ensures id in Rebuilt(edges, end)
            ==> forall k :: 0 <= k < |Rebuilt(edges, end)[id]| ==> Rebuilt(edges, end)[id][k] < |edges|
    decreases |edges|
  {
    if edges != [] {
      RebuiltInRange(edges[..|edges| - 1], end, id);
    }
  }

  lemma {:induction false} PickFromPrefix(edges: seq<CodeRelation>, last: CodeRelation, positions: seq<nat>)
    requires forall k :: 0 <= k < |positions| ==> positions[k] < |edges|
    ensures Pick(edges + [last], positions) == Pick(edges, positions)
    decreases |positions|
  {
    if positions != [] {
      PickFromPrefix(edges, last, positions[..|positions| - 1]);
    }
  }

  function EndIs(end: CodeRelation -> CodeAtomId, id: CodeAtomId): CodeRelation -> bool {
    r => end(r) == id
  }

  function ComesFrom(id: CodeAtomId): CodeRelation -> bool {
    (r: CodeRelation) => r.from == id
  }

  function GoesTo(id: CodeAtomId): CodeRelation -> bool {
    (r: CodeRelation) => r.to == id
  }

  lemma EndsMean(edges: seq<CodeRelation>, id: CodeAtomId)
    ensures Filter(edges, EndIs(SourceOf, id)) == Filter(edges, ComesFrom(id))
    ensures Filter(edges, EndIs(TargetOf, id)) == Filter(edges, GoesTo(id))
  {
    forall i | 0 <= i < |edges|
      ensures EndIs(SourceOf, id)(edges[i]) == ComesFrom(id)(edges[i])
      ensures EndIs(TargetOf, id)(edges[i]) == GoesTo(id)(edges[i])
    {
      EndMeans(edges[i], id);
    }
    FilterSame(edges, EndIs(SourceOf, id), ComesFrom(id));
    FilterSame(edges, EndIs(TargetOf, id), GoesTo(id));
  }

  lemma EndMeans(r: CodeRelation, id: CodeAtomId)
    ensures EndIs(SourceOf, id)(r) == ComesFrom(id)(r) == (r.from == id)
    ensures EndIs(TargetOf, id)(r) == GoesTo(id)(r) == (r.to == id)
  {
    assert SourceOf(r) == r.from && TargetOf(r) == r.to;
  }

  /** A rebuilt index answers every lookup with the ordered filter of the edge list. */
  lemma {:induction false} LookUpIsFilter(edges: seq<CodeRelation>, end: CodeRelation -> CodeAtomId, id: CodeAtomId)
    ensures LookUp(edges, Rebuilt(edges, end), id) == Filter(edges, EndIs(end, id))
    decreases |edges|
  {
    if edges != [] {
      var n := |edges| - 1;
      var init, last := edges[..n], edges[n];
      var before := Rebuilt(init, end);
      assert edges == init + [last];
      LookUpIsFilter(init, end, id);
      RebuiltInRange(init, end, id);
      var positions := if id in before then before[id] else [];
      PickFromPrefix(init, last, positions);
      if end(last) == id {
        assert Rebuilt(edges, end)[id] == positions + [n];
        assert (positions + [n])[..|positions|] == positions;
      }
    }
  }

  function RowOf(index: Index, id: CodeAtomId): seq<nat> {
    if id in index then index[id] else []
  }

  lemma RowSnoc(init: seq<CodeRelation>, last: CodeRelation, end: CodeRelation -> CodeAtomId, id: CodeAtomId)
    ensures RowOf(Rebuilt(init + [last], end), id)
            == RowOf(Rebuilt(init, end), id) + if end(last) == id then [|init|] else []
    ensures id in Rebuilt(init + [last], end) <==> id in Rebuilt(init, end) || end(last) == id
  {
    assert (init + [last])[..|init|] == init;
  }

  /** `row` lists the positions of the edges with that end, upwards. */
  ghost predicate Lists(edges: seq<CodeRelation>, end: CodeRelation -> CodeAtomId, id: CodeAtomId, row: seq<nat>) {
    && (forall i :: i in row <==> 0 <= i < |edges| && end(edges[i]) == id)
    && forall a, b :: 0 <= a < b < |row| ==> row[a] < row[b]
  }

  lemma ListsSnoc(
      init: seq<CodeRelation>, last: CodeRelation, end: CodeRelation -> CodeAtomId, id: CodeAtomId, row: seq<nat>)
    requires Lists(init, end, id, row)
    ensures Lists(init + [last], end, id, row + if end(last) == id then [|init|] else [])
  {
    assert forall a :: 0 <= a < |row| ==> row[a] in row;
  }

  /** A rebuilt index lists under each id the positions of its edges, upwards, and has no empty lists. */
  lemma {:induction false} RebuiltMeans(edges: seq<CodeRelation>, end: CodeRelation -> CodeAtomId, id: CodeAtomId)
    ensures Lists(edges, end, id, RowOf(Rebuilt(edges, end), id))
    ensures id in Rebuilt(edges, end) <==> RowOf(Rebuilt(edges, end), id) != []
    decreases |edges|
  {
    if edges != [] {
      hide Rebuilt, Lists;
      var init, last := edges[..|edges| - 1], edges[|edges| - 1];
      assert edges == init + [last];
      RebuiltMeans(init, end, id);
      RowSnoc(init, last, end, id);
      ListsSnoc(init, last, end, id, RowOf(Rebuilt(init, end), id));
    }
  }

  // ---------- Registry consistency ----------

  lemma NothingRebuilt(end: CodeRelation -> CodeAtomId)
    ensures Rebuilt([], end) == map[]
  {
  }

  lemma RebuiltSnoc(edges: seq<CodeRelation>, i: nat, end: CodeRelation -> CodeAtomId)
    requires i < |edges|
    ensures Rebuilt(edges[..i + 1], end) == Push(Rebuilt(edges[..i], end), end(edges[i]), i)
  {
    assert edges[..i + 1][..i] == edges[..i];
  }

  ghost predicate WellKeyed(atoms: map<CodeAtomId, CodeAtom>) {
    forall k :: k in atoms ==> atoms[k].id == k
  }

  predicate Blank(s: string) {
    Text.Trim(s) == ""
  }

  /** Nothing but whitespace. */
  ghost predicate Bare(s: string) {
    forall c :: c in s ==> Text.IsWhitespace(c)
  }

  lemma BlankMeansBare(s: string)
    ensures Blank(s) <==> Bare(s)
  {
    Text.TrimsToNothing(s);
  }

  datatype Violation =
    | KeyDiffersFromId(key: CodeAtomId)
    | EmptyMetadata(key: CodeAtomId)
    | NoSignature(key: CodeAtomId)
    | MissingSource(position: nat)
    | MissingTarget(position: nat)
    | FromIndexMismatch
    | ToIndexMismatch
  {
    ghost predicate AboutAtom() {
      KeyDiffersFromId? || EmptyMetadata? || NoSignature?
    }
  }

  /** What is wrong with one entry of the atom table. */
  function AtomViolations(key: CodeAtomId, atom: CodeAtom): (r: seq<Violation>)
    ensures forall v :: v in r <==>
              || (v == KeyDiffersFromId(key) && key != atom.id)
              || (v == EmptyMetadata(key) && (Blank(atom.name) || Blank(atom.moduleName)))
              || (v == NoSignature(key) && (atom.kind.FunctionAtom? || atom.kind.MethodAtom?) && Blank(atom.signature))
  {
    (if key != atom.id then [KeyDiffersFromId(key)] else [])
    + (if Blank(atom.name) || Blank(atom.moduleName) then [EmptyMetadata(key)] else [])
    + (if (atom.kind.FunctionAtom? || atom.kind.MethodAtom?) && Blank(atom.signature) then [NoSignature(key)] else [])
  }

  /** What is wrong with the endpoints of one edge. */
  function EndpointViolations(position: nat, rel: CodeRelation, known: set<CodeAtomId>): (r: seq<Violation>)
    ensures forall v :: v in r <==>
              || (v == MissingSource(position) && rel.from !in known)
              || (v == MissingTarget(position) && rel.to !in known)
  {
    (if rel.from !in known then [MissingSource(position)] else [])
    + (if rel.to !in known then [MissingTarget(position)] else [])
  }

  class CodeGraph {
    var atoms: map<CodeAtomId, CodeAtom>
    var edges: seq<CodeRelation>
    var edgesFrom: Index
    var edgesTo: Index

    /** What every operation keeps: keys are the atoms' own ids and both indexes equal the ones
        rebuilt from the edge list. */
    ghost predicate Valid()
      reads this
    {
      && WellKeyed(atoms)
      && edgesFrom == Rebuilt(edges, SourceOf)
      && edgesTo == Rebuilt(edges, TargetOf)
    }

    constructor ()
      ensures Valid() && atoms == map[] && edges == []
    {
      atoms, edges, edgesFrom, edgesTo := map[], [], map[], map[];
    }

    method AddAtom(atom: CodeAtom)
      requires Valid()
      modifies this
      ensures Valid() && atoms == old(atoms)[atom.id := atom] && edges == old(edges)
    {
      atoms := atoms[atom.id := atom];
    }

    method AddRelation(rel: CodeRelation)
      requires Valid()
      modifies this
      ensures Valid() && edges == old(edges) + [rel] && atoms == old(atoms)
    {
      var idx := |edges|;
      edgesFrom := Push(edgesFrom, rel.from, idx);
      edgesTo := Push(edgesTo, rel.to, idx);
      edges := edges + [rel];
      assert edges[..idx] == old(edges);
    }

    function RelationsFrom(id: CodeAtomId): seq<CodeRelation>
      reads this
    {
      LookUp(edges, edgesFrom, id)
    }

    function RelationsTo(id: CodeAtomId): seq<CodeRelation>
      reads this
    {
      LookUp(edges, edgesTo, id)
    }

    /** In a valid graph both queries are the ordered filter of the edges. */
    lemma QueriesAreFilters(id: CodeAtomId)
      requires Valid()
      ensures RelationsFrom(id) == Filter(edges, ComesFrom(id))
      ensures RelationsTo(id) == Filter(edges, GoesTo(id))
    {
      LookUpIsFilter(edges, SourceOf, id);
      LookUpIsFilter(edges, TargetOf, id);
      EndsMean(edges, id);
    }

    /** What `v` accuses the graph of is true of it. */
    ghost predicate Holds(v: Violation)
      reads this
    {
      match v
      case KeyDiffersFromId(k) => k in atoms && atoms[k].id != k
      case EmptyMetadata(k) => k in atoms && (Bare(atoms[k].name) || Bare(atoms[k].moduleName))
      case NoSignature(k) => k in atoms && atoms[k].kind in {FunctionAtom, MethodAtom} && Bare(atoms[k].signature)
      case MissingSource(i) => i < |edges| && edges[i].from !in atoms
      case MissingTarget(i) => i < |edges| && edges[i].to !in atoms
      case FromIndexMismatch => edgesFrom != Rebuilt(edges, SourceOf)
      case ToIndexMismatch => edgesTo != Rebuilt(edges, TargetOf)
    }

    lemma AtomHolds(v: Violation)
      requires v.AboutAtom() && v.key in atoms
      ensures Holds(v) <==> v in AtomViolations(v.key, atoms[v.key])
    {
      hide Blank, Bare;
      BlankMeansBare(atoms[v.key].name);
      BlankMeansBare(atoms[v.key].moduleName);
      BlankMeansBare(atoms[v.key].signature);
    }

    /** What is wrong with the atoms. */
    method ValidateAtoms() returns (violations: seq<Violation>)
      ensures forall v :: v in violations <==> Holds(v) && v.AboutAtom()
    {
      hide Blank, AtomViolations, EndpointViolations, SortedKeys;
      violations := [];
      var keys := SortedKeys(atoms.Keys);
      SortedKeysExact(atoms.Keys);
      for i := 0 to |keys|
        invariant forall v :: v in violations
                    <==> exists j :: 0 <= j < i && v in AtomViolations(keys[j], atoms[keys[j]])
      {
        violations := violations + AtomViolations(keys[i], atoms[keys[i]]);
      }
      forall v
        ensures v in violations <==> Holds(v) && v.AboutAtom()
      {
        if v.AboutAtom() && v.key in atoms {
          AtomHolds(v);
        }
        if Holds(v) && v.AboutAtom() {
          assert v.key in keys;
          var j :| 0 <= j < |keys| && keys[j] == v.key;
          assert v in AtomViolations(keys[j], atoms[keys[j]]);
        }
      }
    }

    /** The registry check reports every violation that holds, and none that does not. */
    method Validate() returns (violations: seq<Violation>)
      ensures forall v :: v in violations <==> Holds(v)
    {
      hide AtomViolations, EndpointViolations, Rebuilt, Push;
      violations := ValidateAtoms();
      NothingRebuilt(SourceOf);
      NothingRebuilt(TargetOf);
      assert edges[..0] == [];
      var expectedFrom: Index, expectedTo: Index := map[], map[];
      for index := 0 to |edges|
        invariant expectedFrom == Rebuilt(edges[..index], SourceOf)
        invariant expectedTo == Rebuilt(edges[..index], TargetOf)
        invariant forall v :: v in violations <==>
                    Holds(v) && (v.AboutAtom() || ((v.MissingSource? || v.MissingTarget?) && v.position < index))
      {
        RebuiltSnoc(edges, index, SourceOf);
        RebuiltSnoc(edges, index, TargetOf);
        violations := violations + EndpointViolations(index, edges[index], atoms.Keys);
        expectedFrom := Push(expectedFrom, edges[index].from, index);
        expectedTo := Push(expectedTo, edges[index].to, index);
      }
      assert edges[..|edges|] == edges;
      if edgesFrom != expectedFrom {
        violations := violations + [FromIndexMismatch];
      }
      if edgesTo != expectedTo {
        violations := violations + [ToIndexMismatch];
      }
    }
  }
}
