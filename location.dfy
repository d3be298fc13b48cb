/**
 * Decoding a variable's DW_AT_location into "REGISTER+OFFSET". Only a single
 * location expression is read, and of it only the first operation, taken as a
 * base-register operation DW_OP_breg<n> (opcode 0x70 + n, DWARF 5 section
 * 2.5.1.2) whose first operand is the offset.
 */
module Locations {
  import opened Dwarf
  import opened Decimal

  /** The opcode of DW_OP_breg0; DW_OP_breg<n> is BregBase + n. */
  const BregBase: int := 0x70

  /** Decoding does not raise: a single expression with operations has an
      operand on its first operation. */
  predicate LocationDefined(d: Die) {
    match d.location
    case Some(LocationExpr(ops)) => |ops| > 0 ==> |ops[0].args| > 0
    case _ => true
  }

  /** The register and offset of the first operation, or "" when there is no
      single expression with an operation to read. */
  function Location(info: DebugInfo, d: Die): (s: string)
    requires LocationDefined(d)
    ensures s == "" <==>
      !(d.location.Some? && d.location.value.LocationExpr? && |d.location.value.ops| > 0)
  {
    match d.location
    case Some(LocationExpr(ops)) =>
      if |ops| == 0 then ""
      else
        var reg := info.registerName(ops[0].opcode - BregBase);
        assert |reg + "+" + IntToString(ops[0].args[0])| > 0;
        reg + "+" + IntToString(ops[0].args[0])
    case _ => ""
  }

  /** A decoded location is the register named by opcode - 0x70, a '+', and
      the first operand in decimal. */
  lemma LocationOfFirstOp(info: DebugInfo, d: Die, ops: seq<Op>)
    requires d.location == Some(LocationExpr(ops)) && |ops| > 0 && |ops[0].args| > 0
    ensures LocationDefined(d)
    ensures Location(info, d) ==
      info.registerName(ops[0].opcode - BregBase) + "+" + IntToString(ops[0].args[0])
  {
  }

  /** Operations after the first do not change the location. */
  lemma LocationIgnoresLaterOps(info: DebugInfo, d: Die, e: Die, ops: seq<Op>, more: seq<Op>)
    requires d.location == Some(LocationExpr(ops)) && |ops| > 0 && |ops[0].args| > 0
    requires e.location == Some(LocationExpr(ops[..1] + more))
    ensures LocationDefined(d) && LocationDefined(e)
    ensures Location(info, d) == Location(info, e)
  {
    assert (ops[..1] + more)[0] == ops[0];
  }

  /** The loop over the parsed operations, which stops after its first
      iteration: only a non-empty list yields a location. */
  method GetLocation(info: DebugInfo, d: Die) returns (s: string)
    requires LocationDefined(d)
    ensures s == Location(info, d)
  {
    s := "";
    if d.location.Some? && d.location.value.LocationExpr? {
      var parsed := d.location.value.ops;
      var i := 0;
      var returned := false;
      while i < |parsed| && !returned
        invariant 0 <= i <= |parsed| && i <= 1
        invariant returned <==> i == 1
        invariant !returned ==> s == ""
        invariant returned ==>
          s == info.registerName(parsed[0].opcode - BregBase) + "+" + IntToString(parsed[0].args[0])
      {
        var op := parsed[i];
        var reg := info.registerName(op.opcode - BregBase);
        var offset := IntToString(op.args[0]);
        s := reg + "+" + offset;
        returned := true;
        i := i + 1;
      }
    }
  }
}
