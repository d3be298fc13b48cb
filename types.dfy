/**
 * Rendering a type entry as a C-like type string and computing its byte size,
 * following pointer, array, const and typedef references (DWARF 5 sections
 * 5.1-5.5 and 5.7).
 *
 * The resolvers recurse through DW_AT_type references, which malformed input
 * may make cyclic; the original recursion then never ends. The predicates
 * StringDefined and SizeDefined take a ghost `depth` that bounds the chain
 * and also rule out the inputs on which the original raises an exception.
 * The results do not depend on which bound is chosen (the DepthIrrelevant
 * lemmas).
 */
module Types {
  import opened Dwarf
  import opened DieIndex
  import opened Decimal

  // ---- array element count (get_array_count) ----

  function IsSubrange(c: Die): bool {
    c.tag.SubrangeType?
  }

  /** The first subrange child must carry DW_AT_count. */
  predicate CountDefined(d: Die) {
    match FirstIndex(d.children, IsSubrange)
    case None => true
    case Some(k) => d.children[k].count.Some?
  }

  /** DW_AT_count of the first subrange child, or 0 when there is no subrange child. */
  function ArrayCount(d: Die): nat
    requires CountDefined(d)
  {
    match FirstIndex(d.children, IsSubrange)
    case None => 0
    case Some(k) => d.children[k].count.value
  }

  /** The count is that of the first subrange child, and 0 when there is none. */
  lemma ArrayCountOfFirstSubrange(d: Die)
    requires CountDefined(d)
    ensures (forall k :: 0 <= k < |d.children| ==> !d.children[k].tag.SubrangeType?) ==> ArrayCount(d) == 0
    ensures forall k :: (0 <= k < |d.children| && d.children[k].tag.SubrangeType? &&
                         (forall j :: 0 <= j < k ==> !d.children[j].tag.SubrangeType?)) ==>
                        d.children[k].count == Some(ArrayCount(d))
  {
    FirstIndexSpec(d.children, IsSubrange);
    forall k | 0 <= k < |d.children| && d.children[k].tag.SubrangeType? &&
               (forall j :: 0 <= j < k ==> !d.children[j].tag.SubrangeType?)
      ensures d.children[k].count == Some(ArrayCount(d))
    {
      FirstIndexAt(d.children, IsSubrange, k);
    }
  }

  /** The loop over the children, returning at the first subrange. */
  method GetArrayCount(d: Die) returns (n: nat)
    requires CountDefined(d)
    ensures n == ArrayCount(d)
  {
    var i := 0;
    while i < |d.children|
      invariant 0 <= i <= |d.children|
      invariant forall j :: 0 <= j < i ==> !IsSubrange(d.children[j])
    {
      if IsSubrange(d.children[i]) {
        FirstIndexAt(d.children, IsSubrange, i);
        return d.children[i].count.value;
      }
      i := i + 1;
    }
    return 0;
  }

  // ---- type strings (get_type_string) ----

  /** The kinds get_type_string renders; for any other kind it yields nothing. */
  predicate Supported(t: Tag) {
    t.PointerType? || t.ArrayType? || t.ConstType? || t.StructureType? ||
    t.UnionType? || t.EnumerationType? || t.BaseType? || t.Typedef?
  }

  /** Rendering d neither raises nor follows more than `depth` references.
      A pointer or const may refer to a missing entry; an array may not, its
      count must be readable, and a found target must be of a rendered kind
      (otherwise the original concatenates None with a string). */
  ghost predicate StringDefined(info: DebugInfo, d: Die, depth: nat)
    decreases depth
  {
    var t := Target(info, d);
    match d.tag
    case PointerType =>
      t.Some? ==> depth > 0 && Supported(t.value.tag) && StringDefined(info, t.value, depth - 1)
    case ConstType =>
      t.Some? ==> depth > 0 && Supported(t.value.tag) && StringDefined(info, t.value, depth - 1)
    case ArrayType =>
      CountDefined(d) && t.Some? && depth > 0 && Supported(t.value.tag) &&
      StringDefined(info, t.value, depth - 1)
    case _ => true
  }

  function TypeString(info: DebugInfo, d: Die, ghost depth: nat): (r: Option<string>)
    requires StringDefined(info, d, depth)
    ensures r.Some? <==> Supported(d.tag)
    decreases depth
  {
    match d.tag
    case PointerType =>
      var t := Target(info, d);
      if t.None? then Some("void*")
      else Some(TypeString(info, t.value, depth - 1).value + "*")
    case ArrayType =>
      var n := ArrayCount(d);
      var t := Target(info, d);
      Some(TypeString(info, t.value, depth - 1).value + "[" + NatToString(n) + "]")
    case ConstType =>
      var t := Target(info, d);
      if t.None? then Some("")
      else Some("const " + TypeString(info, t.value, depth - 1).value)
    case StructureType => Some("struct " + Name(d))
    case UnionType => Some("union " + Name(d))
    case EnumerationType => Some("enum " + Name(d))
    case BaseType => Some(Name(d))
    case Typedef => Some(Name(d))
    case _ => None
  }

  lemma {:induction false} TypeStringDepthIrrelevant(info: DebugInfo, d: Die, n1: nat, n2: nat)
    requires StringDefined(info, d, n1) && StringDefined(info, d, n2)
    ensures TypeString(info, d, n1) == TypeString(info, d, n2)
    decreases n1
  {
    var t := Target(info, d);
    if (d.tag.PointerType? || d.tag.ArrayType? || d.tag.ConstType?) && t.Some? {
      TypeStringDepthIrrelevant(info, t.value, n1 - 1, n2 - 1);
    }
  }

  /** A pointer whose target is not found, DW_AT_type absent included, is "void*". */
  lemma PointerToUnresolved(info: DebugInfo, d: Die, depth: nat)
    requires d.tag.PointerType? && Target(info, d).None?
    ensures StringDefined(info, d, depth)
    ensures TypeString(info, d, depth) == Some("void*")
  {
  }

  /** A pointer to a found target renders the target's string followed by "*"; a
      const renders "const " followed by it; an array the element string and "[n]". */
  lemma DerivedStrings(info: DebugInfo, d: Die, t: Die, depth: nat)
    requires StringDefined(info, d, depth) && Target(info, d) == Some(t)
    ensures d.tag.PointerType? ==> TypeString(info, d, depth) == Some(TypeString(info, t, depth - 1).value + "*")
    ensures d.tag.ConstType? ==> TypeString(info, d, depth) == Some("const " + TypeString(info, t, depth - 1).value)
    ensures d.tag.ArrayType? ==>
      TypeString(info, d, depth) == Some(TypeString(info, t, depth - 1).value + "[" + NatToString(ArrayCount(d)) + "]")
  {
  }

  /** A const whose target is not found renders as the empty string. */
  lemma ConstOfUnresolved(info: DebugInfo, d: Die, depth: nat)
    requires d.tag.ConstType? && Target(info, d).None?
    ensures StringDefined(info, d, depth)
    ensures TypeString(info, d, depth) == Some("")
  {
  }

  /** Named kinds render their keyword and name, with "{anonymous}" for a
      missing name; kinds outside the rendered ones yield nothing. */
  lemma NamedStrings(info: DebugInfo, d: Die, depth: nat)
    requires !(d.tag.PointerType? || d.tag.ArrayType? || d.tag.ConstType?)
    ensures StringDefined(info, d, depth)
    ensures d.tag.StructureType? ==> TypeString(info, d, depth) == Some("struct " + Name(d))
    ensures d.tag.UnionType? ==> TypeString(info, d, depth) == Some("union " + Name(d))
    ensures d.tag.EnumerationType? ==> TypeString(info, d, depth) == Some("enum " + Name(d))
    ensures d.tag.BaseType? || d.tag.Typedef? ==> TypeString(info, d, depth) == Some(Name(d))
    ensures d.name.None? && (d.tag.BaseType? || d.tag.Typedef?) ==> TypeString(info, d, depth) == Some("{anonymous}")
    ensures !Supported(d.tag) ==> TypeString(info, d, depth).None?
  {
  }

  /** The only empty renderings: a const whose target is missing, and a base
      type or typedef whose DW_AT_name is itself empty. */
  lemma EmptyTypeString(info: DebugInfo, d: Die, depth: nat)
    requires StringDefined(info, d, depth)
    ensures TypeString(info, d, depth) == Some("") <==>
      (d.tag.ConstType? && Target(info, d).None?) ||
      ((d.tag.BaseType? || d.tag.Typedef?) && d.name == Some(""))
  {
  }

  // ---- byte sizes (get_byte_size) ----

  /** Computing the size of d neither raises nor follows more than `depth`
      references: a typedef, const or array without DW_AT_byte_size must
      refer to an entry that exists, and an array's count must be readable. */
  ghost predicate SizeDefined(info: DebugInfo, d: Die, depth: nat)
    decreases depth
  {
    var t := Target(info, d);
    if d.byteSize.Some? || d.tag.PointerType? then true
    else if d.tag.Typedef? || d.tag.ConstType? then
      t.Some? && depth > 0 && SizeDefined(info, t.value, depth - 1)
    else if d.tag.ArrayType? then
      CountDefined(d) && t.Some? && depth > 0 && SizeDefined(info, t.value, depth - 1)
    else true
  }

  function ByteSize(info: DebugInfo, d: Die, ghost depth: nat): (n: nat)
    requires SizeDefined(info, d, depth)
    ensures d.byteSize.Some? ==> n == d.byteSize.value
    ensures d.byteSize.None? && d.tag.PointerType? ==> n == info.addressSize
    ensures d.byteSize.None? && !(d.tag.PointerType? || d.tag.Typedef? || d.tag.ConstType? || d.tag.ArrayType?) ==> n == 0
    decreases depth
  {
    if d.byteSize.Some? then d.byteSize.value
    else if d.tag.PointerType? then info.addressSize
    else if d.tag.Typedef? || d.tag.ConstType? then
      ByteSize(info, Target(info, d).value, depth - 1)
    else if d.tag.ArrayType? then
      var count := ArrayCount(d);
      ByteSize(info, Target(info, d).value, depth - 1) * count
    else 0
  }

  lemma {:induction false} ByteSizeDepthIrrelevant(info: DebugInfo, d: Die, n1: nat, n2: nat)
    requires SizeDefined(info, d, n1) && SizeDefined(info, d, n2)
    ensures ByteSize(info, d, n1) == ByteSize(info, d, n2)
    decreases n1
  {
    if d.byteSize.None? && (d.tag.Typedef? || d.tag.ConstType? || d.tag.ArrayType?) {
      ByteSizeDepthIrrelevant(info, Target(info, d).value, n1 - 1, n2 - 1);
    }
  }

  /** A pointer's size is the address size whether or not its target resolves;
      an explicit DW_AT_byte_size wins for every kind. */
  lemma SizePriority(info: DebugInfo, d: Die, depth: nat)
    requires d.byteSize.Some? || d.tag.PointerType?
    ensures SizeDefined(info, d, depth)
    ensures ByteSize(info, d, depth) == if d.byteSize.Some? then d.byteSize.value else info.addressSize
  {
  }

  /** Without DW_AT_byte_size, a typedef or const has the size of what it names
      and an array the element size times the element count. */
  lemma DerivedSizes(info: DebugInfo, d: Die, t: Die, depth: nat)
    requires SizeDefined(info, d, depth) && d.byteSize.None? && Target(info, d) == Some(t)
    ensures d.tag.Typedef? || d.tag.ConstType? ==> ByteSize(info, d, depth) == ByteSize(info, t, depth - 1)
    ensures d.tag.ArrayType? ==> ByteSize(info, d, depth) == ByteSize(info, t, depth - 1) * ArrayCount(d)
  {
  }

  /** An array without a subrange child has size 0 and renders with "[0]". */
  lemma ArrayWithoutSubrange(info: DebugInfo, d: Die, t: Die, depth: nat)
    requires d.tag.ArrayType? && d.byteSize.None? && Target(info, d) == Some(t)
    requires forall k :: 0 <= k < |d.children| ==> !d.children[k].tag.SubrangeType?
    requires depth > 0 && SizeDefined(info, t, depth - 1)
    requires Supported(t.tag) && StringDefined(info, t, depth - 1)
    ensures SizeDefined(info, d, depth) && StringDefined(info, d, depth)
    ensures ByteSize(info, d, depth) == 0
    ensures TypeString(info, d, depth) == Some(TypeString(info, t, depth - 1).value + "[0]")
  {
    ArrayCountOfFirstSubrange(d);
    assert ArrayCount(d) == 0;
    assert NatToString(0) == "0";
    var e := TypeString(info, t, depth - 1).value;
    assert e + "[" + "0" + "]" == e + "[0]";
  }
}
