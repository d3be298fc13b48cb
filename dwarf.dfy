/**
 * The debugging-information tree as the ELF loader hands it over: compilation
 * units, each holding a tree of debugging information entries (DIEs, DWARF 5
 * section 2.1), and the few attributes the frame-size report reads
 * (DWARF 5 section 2.2). Everything here is an immutable value.
 */
module Dwarf {

  datatype Option<T> = None | Some(value: T)

  /** The entry kinds the report distinguishes; any other tag keeps its name. */
  datatype Tag =
    | Subprogram         // DW_TAG_subprogram
    | Variable           // DW_TAG_variable
    | StructureType      // DW_TAG_structure_type
    | UnionType          // DW_TAG_union_type
    | BaseType           // DW_TAG_base_type
    | PointerType        // DW_TAG_pointer_type
    | InlinedSubroutine  // DW_TAG_inlined_subroutine
    | ConstType          // DW_TAG_const_type
    | ArrayType          // DW_TAG_array_type
    | SubrangeType       // DW_TAG_subrange_type
    | Typedef            // DW_TAG_typedef
    | EnumerationType    // DW_TAG_enumeration_type
    | Other(tagName: string)

  /** One operation of a parsed location expression (DWARF 5 section 2.5). */
  datatype Op = Op(opcode: nat, args: seq<int>)

  /** A DW_AT_location value after the loader's location parser: either a
      location list (DWARF 5 section 2.6.2) or a single expression. */
  datatype LocationAttr = LocationList | LocationExpr(ops: seq<Op>)

  /** A DIE with the attributes the report reads; `None` means the attribute is absent. */
  datatype Die = Die(
    tag: Tag,
    offset: nat,
    name: Option<string>,             // DW_AT_name
    typeRef: Option<nat>,             // DW_AT_type, a global offset
    byteSize: Option<nat>,            // DW_AT_byte_size
    count: Option<nat>,               // DW_AT_count
    abstractOrigin: Option<nat>,      // DW_AT_abstract_origin, a global offset
    location: Option<LocationAttr>,   // DW_AT_location
    children: seq<Die>)

  datatype CompileUnit = CompileUnit(top: Die)

  /** The loaded debugging information. `addressSize` is the configuration's
      default address size; `registerName` is the architecture's register
      naming table, already upper-cased. */
  datatype DebugInfo = DebugInfo(
    units: seq<CompileUnit>,
    addressSize: nat,
    registerName: int -> string)

  /** DW_AT_name, or "{anonymous}" when the entry has none. */
  function Name(d: Die): string {
    if d.name.Some? then d.name.value else "{anonymous}"
  }

  /** DW_AT_type, or offset 0 when the entry has none. */
  function TypeValue(d: Die): nat {
    if d.typeRef.Some? then d.typeRef.value else 0
  }

  predicate IsAbstract(d: Die) {
    d.abstractOrigin.Some?
  }

  predicate IsFunctionNamed(d: Die, fnName: string) {
    d.tag.Subprogram? && Name(d) == fnName
  }

  /** The entries of a tree in pre-order: parent first, then each child's subtree. */
  function PreOrder(d: Die): seq<Die>
    decreases d
  {
    [d] + PreOrderAll(d.children)
  }

  function PreOrderAll(ds: seq<Die>): seq<Die>
    decreases ds
  {
    if ds == [] then [] else PreOrder(ds[0]) + PreOrderAll(ds[1..])
  }

  /** All entries of the given units, unit after unit. */
  function Flat(units: seq<CompileUnit>): seq<Die> {
    if units == [] then [] else PreOrder(units[0].top) + Flat(units[1..])
  }

  function AllDies(info: DebugInfo): seq<Die> {
    Flat(info.units)
  }

  /** The index of the first element satisfying `p`, or None when none does.
      The lookups by offset (DieIndex.OffsetIndex) and by function name
      (Scanner.FunctionIndex) are the same search written out for their one
      predicate: with the predicate passed as a function value, every proof
      that mentions the search becomes far more expensive for the verifier. */
  function FirstIndex<T>(s: seq<T>, p: T -> bool): (r: Option<nat>)
    ensures r.Some? ==> r.value < |s| && p(s[r.value])
  {
    if s == [] then None
    else if p(s[0]) then Some(0)
    else match FirstIndex(s[1..], p)
      case None => None
      case Some(k) => Some(k + 1)
  }

  /** FirstIndex finds an element satisfying `p` with none before it, and
      finds nothing only when no element satisfies `p`. */
  lemma {:induction false} FirstIndexSpec<T>(s: seq<T>, p: T -> bool)
    ensures FirstIndex(s, p).Some? ==> forall j :: 0 <= j < FirstIndex(s, p).value ==> !p(s[j])
    ensures FirstIndex(s, p).None? ==> forall k :: 0 <= k < |s| ==> !p(s[k])
  {
    if s != [] && !p(s[0]) {
      FirstIndexSpec(s[1..], p);
    }
  }

  /** An element that satisfies `p` and has no earlier one that does is the first. */
  lemma FirstIndexAt<T>(s: seq<T>, p: T -> bool, k: nat)
    requires k < |s| && p(s[k])
    requires forall j :: 0 <= j < k ==> !p(s[j])
    ensures FirstIndex(s, p) == Some(k)
  {
    FirstIndexSpec(s, p);
    var r := FirstIndex(s, p);
    assert r.Some?;
    assert !(r.value < k);
    assert !(k < r.value);
  }

  lemma {:induction false} FlatAppend(a: seq<CompileUnit>, b: seq<CompileUnit>)
    ensures Flat(a + b) == Flat(a) + Flat(b)
  {
    if a == [] {
      assert a + b == b;
    } else {
      assert (a + b)[1..] == a[1..] + b;
      FlatAppend(a[1..], b);
    }
  }

  /** What the entries of the first i + 1 units add to those of the first i. */
  lemma FlatPrefixStep(units: seq<CompileUnit>, i: nat)
    requires i < |units|
    ensures Flat(units[..i + 1]) == Flat(units[..i]) + PreOrder(units[i].top)
  {
    assert units[..i + 1] == units[..i] + [units[i]];
    FlatAppend(units[..i], [units[i]]);
    assert [units[i]][1..] == [];
  }

  /** The entries of all units split around unit i. */
  lemma FlatSplit(units: seq<CompileUnit>, i: nat)
    requires i < |units|
    ensures Flat(units) == Flat(units[..i]) + PreOrder(units[i].top) + Flat(units[i + 1..])
  {
    assert units == units[..i + 1] + units[i + 1..];
    FlatAppend(units[..i + 1], units[i + 1..]);
    FlatPrefixStep(units, i);
  }

  lemma AppendAssoc<T>(x: seq<T>, y: seq<T>, z: seq<T>)
    ensures (x + y) + z == x + (y + z)
  {
  }

  lemma TakeOneMore<T>(s: seq<T>, j: nat)
    requires j < |s|
    ensures s[..j + 1] == s[..j] + [s[j]]
  {
  }

  lemma TakeTail<T>(s: seq<T>, k: nat)
    requires 0 < k <= |s|
    ensures s[..k][0] == s[0] && s[..k][1..] == s[1..][..k - 1]
    ensures forall j :: 0 <= j < |s| - 1 ==> s[1..][j] == s[j + 1]
  {
  }

  lemma TakeAll<T>(s: seq<T>)
    ensures s[..|s|] == s
  {
  }

  /** Cutting the middle part of x + s + y around its element j. */
  lemma SplitAt<T>(x: seq<T>, s: seq<T>, y: seq<T>, j: nat)
    requires j < |s|
    ensures x + s + y == (x + s[..j]) + [s[j]] + (s[j + 1..] + y)
  {
    var p, e, q := s[..j], [s[j]], s[j + 1..];
    assert s == (p + e) + q;
    AppendAssoc(x, p + e, q);
    AppendAssoc(x, p, e);
    AppendAssoc((x + p) + e, q, y);
  }

  /** Entry j of unit i sits, among all entries, after those of the earlier
      units and the first j of its own unit. */
  lemma EntryPosition(info: DebugInfo, i: nat, j: nat)
    requires i < |info.units| && j < |PreOrder(info.units[i].top)|
    ensures var dies := PreOrder(info.units[i].top);
      AllDies(info) == (Flat(info.units[..i]) + dies[..j]) + [dies[j]] + (dies[j + 1..] + Flat(info.units[i + 1..]))
  {
    FlatSplit(info.units, i);
    SplitAt(Flat(info.units[..i]), PreOrder(info.units[i].top), Flat(info.units[i + 1..]), j);
  }
}
