/**
 * Worked reports on small concrete trees: a function with two variables, a
 * function that inlines another, a name that is not there, and a pointer to
 * a const type.
 */
module Scenarios {
  import opened Dwarf
  import opened DieIndex
  import opened Types
  import opened Locations
  import opened Scanner
  import opened Decimal

  function Leaf(tag: Tag, offset: nat, name: Option<string>, typeRef: Option<nat>, byteSize: Option<nat>): Die {
    Die(tag, offset, name, typeRef, byteSize, None, None, None, [])
  }

  const S := Leaf(StructureType, 20, Some("S"), None, Some(8))
  const P := Leaf(PointerType, 30, None, Some(20), None)
  const I := Leaf(BaseType, 40, Some("int"), None, Some(4))
  /** V: a pointer to struct S, without a location. */
  const V := Leaf(Variable, 60, Some("V"), Some(30), None)
  /** W: an int at offset 0 from register 0 (DW_OP_breg0 0). */
  const W := Die(Variable, 70, Some("W"), Some(40), None, None, None,
                 Some(LocationExpr([Op(0x70, [0])])), [])
  const F := Die(Subprogram, 50, Some("F"), None, None, None, None, None, [V, W])
  const G := Leaf(Subprogram, 80, Some("G"), None, None)
  const Unit1 := Die(Other("DW_TAG_compile_unit"), 11, None, None, None, None, None, None, [S, P, I, F, G])

  function RegNames(r: int): string {
    if r == 0 then "R0" else "R?"
  }

  const Info1 := DebugInfo([CompileUnit(Unit1)], 8, RegNames)

  /** A run of leaves lists in pre-order as itself. */
  lemma {:induction false} PreOrderOfLeaves(ds: seq<Die>)
    requires forall k :: 0 <= k < |ds| ==> ds[k].children == []
    ensures PreOrderAll(ds) == ds
  {
    if ds != [] {
      PreOrderOfLeaves(ds[1..]);
      assert PreOrder(ds[0]) == [ds[0]] + PreOrderAll([]);
    }
  }

  lemma PreOrderAllCons(d: Die, ds: seq<Die>)
    ensures PreOrderAll([d] + ds) == PreOrder(d) + PreOrderAll(ds)
  {
    assert ([d] + ds)[0] == d && ([d] + ds)[1..] == ds;
  }

  lemma Info1Entries()
    ensures AllDies(Info1) == [Unit1, S, P, I, F, V, W, G]
  {
    PreOrderOfLeaves([V, W]);
    PreOrderOfLeaves([G]);
    assert PreOrder(S) == [S] && PreOrder(P) == [P] && PreOrder(I) == [I] by {
      PreOrderOfLeaves([]);
    }
    PreOrderAllCons(F, [G]);
    assert [F] + [G] == [F, G];
    PreOrderAllCons(I, [F, G]);
    assert [I] + [F, G] == [I, F, G];
    PreOrderAllCons(P, [I, F, G]);
    assert [P] + [I, F, G] == [P, I, F, G];
    PreOrderAllCons(S, [P, I, F, G]);
    assert [S] + [P, I, F, G] == [S, P, I, F, G];
    assert Flat([CompileUnit(Unit1)]) == PreOrder(Unit1) + Flat([]);
  }

  lemma Info1Targets()
    ensures Target(Info1, V) == Some(P) && Target(Info1, P) == Some(S) && Target(Info1, W) == Some(I)
  {
    Info1Entries();
    FindDieAt(Info1, 30, 2);
    FindDieAt(Info1, 20, 1);
    FindDieAt(Info1, 40, 3);
  }

  lemma RowOfV()
    ensures RowDefined(Info1, V, 1)
    ensures VarRow(Info1, V, 1) == Row(8, Some("struct S*"), "V", "")
  {
    Info1Targets();
    NamedStrings(Info1, S, 0);
    assert StringDefined(Info1, P, 1);
    DerivedStrings(Info1, P, S, 1);
    assert "struct " + "S" + "*" == "struct S*";
    SizePriority(Info1, P, 1);
    DirectRow(Info1, V, P, 1);
  }

  lemma RowOfW()
    ensures RowDefined(Info1, W, 1)
    ensures VarRow(Info1, W, 1) == Row(4, Some("int"), "W", "R0+0")
  {
    Info1Targets();
    NamedStrings(Info1, I, 1);
    SizePriority(Info1, I, 1);
    LocationOfFirstOp(Info1, W, [Op(0x70, [0])]);
    assert IntToString(0) == "0";
    assert RegNames(0x70 - BregBase) + "+" + "0" == "R0+0";
    DirectRow(Info1, W, I, 1);
  }

  lemma VariableStep(info: DebugInfo, d: Die, ds: seq<Die>, depth: nat)
    requires d.tag.Variable? && RowDefined(info, d, depth) && BodyDefined(info, ds, depth)
    ensures BodyDefined(info, [d] + ds, depth)
    ensures Body(info, [d] + ds, depth) == [VarRow(info, d, depth)] + Body(info, ds, depth)
  {
    assert ([d] + ds)[0] == d && ([d] + ds)[1..] == ds;
  }

  lemma SubprogramEnds(info: DebugInfo, d: Die, ds: seq<Die>, depth: nat)
    requires d.tag.Subprogram?
    ensures BodyDefined(info, [d] + ds, depth) && Body(info, [d] + ds, depth) == []
  {
  }

  /** The entries after F give the rows of V and W, and G ends the run. */
  lemma BodyOfF()
    ensures BodyDefined(Info1, [V, W, G], 1)
    ensures Body(Info1, [V, W, G], 1) ==
      [Row(8, Some("struct S*"), "V", ""), Row(4, Some("int"), "W", "R0+0")]
  {
    RowOfV();
    RowOfW();
    SubprogramEnds(Info1, G, [], 1);
    VariableStep(Info1, W, [G], 1);
    assert [W] + [G] == [W, G];
    VariableStep(Info1, V, [W, G], 1);
    assert [V] + [W, G] == [V, W, G];
  }

  /** The report for F: its header and the rows of V and W; the subprogram G
      that follows ends it. */
  lemma ReportOfF()
    ensures ScanDefined(Info1, "F", 1)
    ensures Scan(Info1, "F", 1) ==
      [Header("F"), Row(8, Some("struct S*"), "V", ""), Row(4, Some("int"), "W", "R0+0")]
  {
    Info1Entries();
    FunctionIndexAt(AllDies(Info1), "F", 4);
    assert AllDies(Info1)[5..] == [V, W, G];
    BodyOfF();
    ScanAt(Info1, "F", 1, 4);
  }

  /** No subprogram is named H, so its report is empty, header included. */
  lemma ReportOfAbsent()
    ensures ScanDefined(Info1, "H", 0) && Scan(Info1, "H", 0) == []
  {
    Info1Entries();
    ScanAbsent(Info1, "H", 0);
  }

  // ---- a function that inlines another ----

  const X := Leaf(Variable, 60, Some("X"), Some(40), None)
  const Gi := Die(Subprogram, 50, Some("G"), None, None, None, None, None, [X])
  /** The inlined copy of G inside Fi. */
  const Call := Die(InlinedSubroutine, 80, None, None, None, None, Some(50), None, [])
  const Y := Leaf(Variable, 90, Some("Y"), Some(40), None)
  const Fi := Die(Subprogram, 70, Some("F"), None, None, None, None, None, [Call, Y])
  const H := Leaf(Subprogram, 100, Some("H"), None, None)
  const Unit2 := Die(Other("DW_TAG_compile_unit"), 11, None, None, None, None, None, None, [I, Gi, Fi, H])
  const Info2 := DebugInfo([CompileUnit(Unit2)], 8, RegNames)

  lemma Info2Subtrees()
    ensures PreOrder(I) == [I] && PreOrder(H) == [H]
    ensures PreOrder(Gi) == [Gi, X] && PreOrder(Fi) == [Fi, Call, Y]
  {
    PreOrderOfLeaves([]);
    PreOrderOfLeaves([X]);
    PreOrderOfLeaves([Call, Y]);
  }

  lemma Info2Entries()
    ensures AllDies(Info2) == [Unit2, I, Gi, X, Fi, Call, Y, H]
  {
    Info2Subtrees();
    PreOrderAllCons(H, []);
    PreOrderAllCons(Fi, [H]);
    PreOrderAllCons(Gi, [Fi, H]);
    PreOrderAllCons(I, [Gi, Fi, H]);
    assert [I] + [Gi, Fi, H] == [I, Gi, Fi, H] && [Gi] + [Fi, H] == [Gi, Fi, H] && [Fi] + [H] == [Fi, H];
    assert Flat([CompileUnit(Unit2)]) == PreOrder(Unit2) + Flat([]);
  }

  /** An int variable of Info2 without a location, at any depth. */
  lemma IntRow(d: Die, depth: nat)
    requires d == X || d == Y
    ensures RowDefined(Info2, d, depth)
    ensures VarRow(Info2, d, depth) == Row(4, Some("int"), Name(d), "")
  {
    Info2Entries();
    FindDieAt(Info2, 40, 1);
    NamedStrings(Info2, I, depth);
    SizePriority(Info2, I, depth);
    DirectRow(Info2, d, I, depth);
  }

  /** The entries after G: the row of X, then F ends the run. */
  lemma BodyOfG()
    ensures BodyDefined(Info2, [X, Fi, Call, Y, H], 1)
    ensures Body(Info2, [X, Fi, Call, Y, H], 1) == [Row(4, Some("int"), "X", "")]
  {
    IntRow(X, 1);
    SubprogramEnds(Info2, Fi, [Call, Y, H], 1);
    assert [Fi] + [Call, Y, H] == [Fi, Call, Y, H];
    VariableStep(Info2, X, [Fi, Call, Y, H], 1);
    assert [X] + [Fi, Call, Y, H] == [X, Fi, Call, Y, H];
  }

  /** G's own report: its header and the row of X. */
  lemma ReportOfG()
    ensures ScanDefined(Info2, "G", 1)
    ensures Scan(Info2, "G", 1) == [Header("G"), Row(4, Some("int"), "X", "")]
  {
    Info2Entries();
    FunctionIndexAt(AllDies(Info2), "G", 2);
    assert AllDies(Info2)[3..] == [X, Fi, Call, Y, H];
    BodyOfG();
    ScanAt(Info2, "G", 1, 2);
  }

  lemma InlinedStep(info: DebugInfo, d: Die, ds: seq<Die>, depth: nat)
    requires d.tag.InlinedSubroutine? && HasOrigin(info, d) && depth > 0
    requires ScanDefined(info, InlinedName(info, d), depth - 1) && BodyDefined(info, ds, depth)
    ensures BodyDefined(info, [d] + ds, depth)
    ensures Body(info, [d] + ds, depth) == Scan(info, InlinedName(info, d), depth - 1) + Body(info, ds, depth)
  {
    assert ([d] + ds)[0] == d && ([d] + ds)[1..] == ds;
  }

  /** The inlined copy stands for G. */
  lemma CallOrigin()
    ensures HasOrigin(Info2, Call) && InlinedName(Info2, Call) == "G"
  {
    Info2Entries();
    FindDieAt(Info2, 50, 2);
  }

  lemma TailOfFi()
    ensures BodyDefined(Info2, [Y, H], 2)
    ensures Body(Info2, [Y, H], 2) == [Row(4, Some("int"), "Y", "")]
  {
    IntRow(Y, 2);
    SubprogramEnds(Info2, H, [], 2);
    VariableStep(Info2, Y, [H], 2);
    assert [Y] + [H] == [Y, H];
  }

  /** The entries after F: the inlined copy of G splices in G's whole report,
      header included, and then Y gets its row. */
  lemma BodyOfFi()
    ensures BodyDefined(Info2, [Call, Y, H], 2)
    ensures Body(Info2, [Call, Y, H], 2) ==
      [Header("G"), Row(4, Some("int"), "X", ""), Row(4, Some("int"), "Y", "")]
  {
    CallOrigin();
    ReportOfG();
    TailOfFi();
    InlinedStep(Info2, Call, [Y, H], 2);
    assert [Call] + [Y, H] == [Call, Y, H];
  }

  lemma ReportOfInliner()
    ensures ScanDefined(Info2, "F", 2)
    ensures Scan(Info2, "F", 2) ==
      [Header("F"), Header("G"), Row(4, Some("int"), "X", ""), Row(4, Some("int"), "Y", "")]
  {
    Info2Entries();
    FunctionIndexAt(AllDies(Info2), "F", 4);
    assert AllDies(Info2)[5..] == [Call, Y, H];
    BodyOfFi();
    ScanAt(Info2, "F", 2, 4);
  }

  // ---- a pointer to a const type ----

  const C := Leaf(ConstType, 50, None, Some(40), None)
  const Q := Leaf(PointerType, 60, None, Some(50), None)
  const Unit3 := Die(Other("DW_TAG_compile_unit"), 11, None, None, None, None, None, None, [I, C, Q])
  const Info3 := DebugInfo([CompileUnit(Unit3)], 8, RegNames)

  /** A pointer to const int renders as "const int*"; the const has the size
      of the int and the pointer the address size. */
  lemma PointerToConst()
    ensures StringDefined(Info3, Q, 2) && TypeString(Info3, Q, 2) == Some("const int*")
    ensures SizeDefined(Info3, C, 1) && ByteSize(Info3, C, 1) == 4
    ensures SizeDefined(Info3, Q, 0) && ByteSize(Info3, Q, 0) == 8
  {
    PreOrderOfLeaves([I, C, Q]);
    assert Flat([CompileUnit(Unit3)]) == PreOrder(Unit3) + Flat([]);
    assert AllDies(Info3) == [Unit3, I, C, Q];
    FindDieAt(Info3, 40, 1);
    FindDieAt(Info3, 50, 2);
    NamedStrings(Info3, I, 0);
    assert StringDefined(Info3, C, 1);
    DerivedStrings(Info3, C, I, 1);
    assert StringDefined(Info3, Q, 2);
    DerivedStrings(Info3, Q, C, 2);
    assert "const " + "int" + "*" == "const int*";
    SizePriority(Info3, I, 0);
    assert SizeDefined(Info3, C, 1);
    DerivedSizes(Info3, C, I, 1);
    SizePriority(Info3, Q, 0);
  }
}
