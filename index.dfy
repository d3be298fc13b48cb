/**
 * Looking an entry up by its global offset: the first entry, in unit-then-
 * pre-order, whose offset matches (find_type_info).
 */
module DieIndex {
  import opened Dwarf

  /** The position of the first entry of ds with offset v, if any. */
  function OffsetIndex(ds: seq<Die>, v: nat): (r: Option<nat>)
    ensures r.Some? ==> r.value < |ds|
  {
    if ds == [] then None
    else if ds[0].offset == v then Some(0)
    else match OffsetIndex(ds[1..], v)
      case None => None
      case Some(k) => Some(k + 1)
  }

  /** The position found holds an entry with offset v and no entry before it
      has that offset; when nothing is found, no entry has it. */
  lemma {:induction false} OffsetIndexSpec(ds: seq<Die>, v: nat)
    ensures OffsetIndex(ds, v).Some? ==> OffsetIndex(ds, v).value < |ds| && ds[OffsetIndex(ds, v).value].offset == v
    ensures OffsetIndex(ds, v).Some? ==> forall j :: 0 <= j < OffsetIndex(ds, v).value ==> ds[j].offset != v
    ensures OffsetIndex(ds, v).None? ==> forall k :: 0 <= k < |ds| ==> ds[k].offset != v
  {
    if ds != [] && ds[0].offset != v {
      OffsetIndexSpec(ds[1..], v);
    }
  }

  lemma OffsetIndexAt(ds: seq<Die>, v: nat, k: nat)
    requires k < |ds| && ds[k].offset == v
    requires forall j :: 0 <= j < k ==> ds[j].offset != v
    ensures OffsetIndex(ds, v) == Some(k)
  {
    OffsetIndexSpec(ds, v);
    var r := OffsetIndex(ds, v);
    assert r.Some?;
    assert !(r.value < k);
    assert !(k < r.value);
  }

  /** The first entry of the whole tree with the given offset, if any. */
  function FindDie(info: DebugInfo, v: nat): Option<Die> {
    var all := AllDies(info);
    match OffsetIndex(all, v)
    case None => None
    case Some(k) => Some(all[k])
  }

  /** The entry a type-carrying entry refers to through DW_AT_type (offset 0 when absent). */
  function Target(info: DebugInfo, d: Die): Option<Die> {
    FindDie(info, TypeValue(d))
  }

  /** Lookup finds nothing exactly when no entry has the offset, and what it
      finds has that offset and is an entry of the tree. */
  lemma FindDieFound(info: DebugInfo, v: nat)
    ensures FindDie(info, v).None? <==> forall k :: 0 <= k < |AllDies(info)| ==> AllDies(info)[k].offset != v
    ensures FindDie(info, v).Some? ==> FindDie(info, v).value.offset == v && FindDie(info, v).value in AllDies(info)
  {
    OffsetIndexSpec(AllDies(info), v);
  }

  /** When no entry before position k has offset v and the entry at k has, lookup yields that entry. */
  lemma FindDieAt(info: DebugInfo, v: nat, k: nat)
    requires k < |AllDies(info)| && AllDies(info)[k].offset == v
    requires forall j :: 0 <= j < k ==> AllDies(info)[j].offset != v
    ensures FindDie(info, v) == Some(AllDies(info)[k])
  {
    OffsetIndexAt(AllDies(info), v, k);
  }

  /** The nested scan over units and their entries, stopping at the first match. */
  method FindTypeInfo(info: DebugInfo, v: nat) returns (r: Option<Die>)
    ensures r == FindDie(info, v)
  {
    ghost var seen: seq<Die> := [];
    var i := 0;
    while i < |info.units|
      invariant 0 <= i <= |info.units|
      invariant seen == Flat(info.units[..i])
      invariant forall k :: 0 <= k < |seen| ==> seen[k].offset != v
    {
      var dies := PreOrder(info.units[i].top);
      var j := 0;
      while j < |dies|
        invariant 0 <= j <= |dies|
        invariant seen == Flat(info.units[..i]) + dies[..j]
        invariant forall k :: 0 <= k < |seen| ==> seen[k].offset != v
      {
        EntryPosition(info, i, j);
        assert AllDies(info)[|seen|] == dies[j];
        if dies[j].offset == v {
          FindDieAt(info, v, |seen|);
          return Some(dies[j]);
        }
        TakeOneMore(dies, j);
        AppendAssoc(Flat(info.units[..i]), dies[..j], [dies[j]]);
        seen := seen + [dies[j]];
        j := j + 1;
      }
      FlatPrefixStep(info.units, i);
      TakeAll(dies);
      i := i + 1;
    }
    TakeAll(info.units);
    FindDieFound(info, v);
    return None;
  }
}
