/**
 * The frame report for one function: find the first subprogram with the
 * requested name, print a header, then one row per variable entry until the
 * next subprogram entry, splicing in the report of each inlined subroutine's
 * origin (DWARF 5 section 3.3.8).
 *
 * Scan and Body give the report as a value; the class Report is the output
 * buffer the imperative scan appends to, and its methods are proved to append
 * exactly that value.
 */
module Scanner {
  import opened Dwarf
  import opened DieIndex
  import opened Types
  import opened Locations

  datatype Line =
    | Header(fnName: string)
    | Row(size: nat, typeName: Option<string>, name: string, location: string)

  // ---- one variable (print_var) ----

  /** Building the row of d does not raise: an abstract origin must be found;
      otherwise the declared type must be found, be renderable and have a
      computable size, and the location must be decodable. */
  ghost predicate RowDefined(info: DebugInfo, d: Die, depth: nat)
    decreases depth
  {
    if IsAbstract(d) then
      var o := FindDie(info, d.abstractOrigin.value);
      o.Some? && depth > 0 && RowDefined(info, o.value, depth - 1)
    else
      var t := Target(info, d);
      t.Some? && StringDefined(info, t.value, depth) && SizeDefined(info, t.value, depth) &&
      LocationDefined(d)
  }

  function VarRow(info: DebugInfo, d: Die, ghost depth: nat): (r: Line)
    requires RowDefined(info, d, depth)
    ensures r.Row?
    decreases depth
  {
    if IsAbstract(d) then
      VarRow(info, FindDie(info, d.abstractOrigin.value).value, depth - 1)
    else
      var t := Target(info, d).value;
      Row(ByteSize(info, t, depth), TypeString(info, t, depth), Name(d), Location(info, d))
  }

  lemma {:induction false} VarRowDepthIrrelevant(info: DebugInfo, d: Die, n1: nat, n2: nat)
    requires RowDefined(info, d, n1) && RowDefined(info, d, n2)
    ensures VarRow(info, d, n1) == VarRow(info, d, n2)
    decreases n1
  {
    if IsAbstract(d) {
      VarRowDepthIrrelevant(info, FindDie(info, d.abstractOrigin.value).value, n1 - 1, n2 - 1);
    } else {
      var t := Target(info, d).value;
      TypeStringDepthIrrelevant(info, t, n1, n2);
      ByteSizeDepthIrrelevant(info, t, n1, n2);
    }
  }

  /** A variable with an abstract origin gives exactly the row of its origin. */
  lemma AbstractOriginRow(info: DebugInfo, d: Die, o: Die, n: nat, m: nat)
    requires IsAbstract(d) && FindDie(info, d.abstractOrigin.value) == Some(o)
    requires RowDefined(info, d, n) && RowDefined(info, o, m)
    ensures VarRow(info, d, n) == VarRow(info, o, m)
  {
    VarRowDepthIrrelevant(info, o, n - 1, m);
  }

  /** Without an abstract origin the row is the size and string of the declared
      type, the variable's own name and its decoded location. */
  lemma DirectRow(info: DebugInfo, d: Die, t: Die, n: nat)
    requires !IsAbstract(d) && Target(info, d) == Some(t) && RowDefined(info, d, n)
    ensures VarRow(info, d, n) ==
      Row(ByteSize(info, t, n), TypeString(info, t, n), Name(d), Location(info, d))
  {
  }

  // ---- the scan (parse_file) ----

  /** The position of the first subprogram entry of ds named fnName, if any. */
  function FunctionIndex(ds: seq<Die>, fnName: string): (r: Option<nat>)
    ensures r.Some? ==> r.value < |ds|
  {
    if ds == [] then None
    else if IsFunctionNamed(ds[0], fnName) then Some(0)
    else match FunctionIndex(ds[1..], fnName)
      case None => None
      case Some(k) => Some(k + 1)
  }

  /** The position found holds that subprogram and no entry before it is
      that subprogram; when nothing is found, no entry is. */
  lemma {:induction false} FunctionIndexSpec(ds: seq<Die>, fnName: string)
    ensures FunctionIndex(ds, fnName).Some? ==>
      FunctionIndex(ds, fnName).value < |ds| && IsFunctionNamed(ds[FunctionIndex(ds, fnName).value], fnName)
    ensures FunctionIndex(ds, fnName).Some? ==>
      forall j :: 0 <= j < FunctionIndex(ds, fnName).value ==> !IsFunctionNamed(ds[j], fnName)
    ensures FunctionIndex(ds, fnName).None? ==> forall k :: 0 <= k < |ds| ==> !IsFunctionNamed(ds[k], fnName)
  {
    if ds != [] && !IsFunctionNamed(ds[0], fnName) {
      FunctionIndexSpec(ds[1..], fnName);
    }
  }

  lemma FunctionIndexAt(ds: seq<Die>, fnName: string, k: nat)
    requires k < |ds| && IsFunctionNamed(ds[k], fnName)
    requires forall j :: 0 <= j < k ==> !IsFunctionNamed(ds[j], fnName)
    ensures FunctionIndex(ds, fnName) == Some(k)
  {
    FunctionIndexSpec(ds, fnName);
    var r := FunctionIndex(ds, fnName);
    assert r.Some?;
    assert !(r.value < k);
    assert !(k < r.value);
  }

  /** Searching one more entry that is not the subprogram still finds nothing. */
  lemma {:induction false} FunctionIndexExtend(ds: seq<Die>, fnName: string, d: Die)
    requires FunctionIndex(ds, fnName).None? && !IsFunctionNamed(d, fnName)
    ensures FunctionIndex(ds + [d], fnName).None?
  {
    if ds == [] {
      assert ds + [d] == [d];
    } else {
      assert (ds + [d])[1..] == ds[1..] + [d];
      FunctionIndexExtend(ds[1..], fnName, d);
    }
  }

  /** The origin of an inlined subroutine must be given and found. */
  predicate HasOrigin(info: DebugInfo, d: Die) {
    d.abstractOrigin.Some? && FindDie(info, d.abstractOrigin.value).Some?
  }

  /** The name of the function an inlined subroutine stands for. */
  function InlinedName(info: DebugInfo, d: Die): string
    requires HasOrigin(info, d)
  {
    Name(FindDie(info, d.abstractOrigin.value).value)
  }

  /** Scanning for fnName does not raise and inlines at most `depth` levels deep. */
  ghost predicate ScanDefined(info: DebugInfo, fnName: string, depth: nat)
    decreases depth, 2, 0
  {
    var all := AllDies(info);
    match FunctionIndex(all, fnName)
    case None => true
    case Some(f) => BodyDefined(info, all[f + 1..], depth)
  }

  ghost predicate BodyDefined(info: DebugInfo, ds: seq<Die>, depth: nat)
    decreases depth, 1, |ds|
  {
    ds == [] || ds[0].tag.Subprogram? ||
    (EntryDefined(info, ds[0], depth) && BodyDefined(info, ds[1..], depth))
  }

  /** Handling one entry past the match does not raise: a variable's row can be
      built, and an inlined subroutine's origin is given, found and scannable. */
  ghost predicate EntryDefined(info: DebugInfo, d: Die, depth: nat)
    decreases depth, 0, 0
  {
    match d.tag
    case Variable => RowDefined(info, d, depth)
    case InlinedSubroutine =>
      HasOrigin(info, d) && depth > 0 && ScanDefined(info, InlinedName(info, d), depth - 1)
    case _ => true
  }

  /** The report for fnName: nothing if no subprogram has that name, otherwise
      its header and the lines for the entries after it. */
  function Scan(info: DebugInfo, fnName: string, ghost depth: nat): seq<Line>
    requires ScanDefined(info, fnName, depth)
    decreases depth, 2, 0
  {
    var all := AllDies(info);
    match FunctionIndex(all, fnName)
    case None => []
    case Some(f) => [Header(Name(all[f]))] + Body(info, all[f + 1..], depth)
  }

  /** The report is empty exactly when no subprogram has the name, and
      otherwise starts with the header naming it. */
  lemma ScanShape(info: DebugInfo, fnName: string, depth: nat)
    requires ScanDefined(info, fnName, depth)
    ensures Scan(info, fnName, depth) == [] <==> FunctionIndex(AllDies(info), fnName).None?
    ensures Scan(info, fnName, depth) != [] ==> Scan(info, fnName, depth)[0] == Header(fnName)
  {
    FunctionIndexSpec(AllDies(info), fnName);
  }

  /** The lines for a run of entries, up to the first subprogram entry. */
  function Body(info: DebugInfo, ds: seq<Die>, ghost depth: nat): seq<Line>
    requires BodyDefined(info, ds, depth)
    decreases depth, 1, |ds|
  {
    if ds == [] || ds[0].tag.Subprogram? then []
    else EntryLines(info, ds[0], depth) + Body(info, ds[1..], depth)
  }

  /** The lines of one entry past the match: a variable's row, the report of an
      inlined subroutine's origin, nothing for any other entry. */
  function EntryLines(info: DebugInfo, d: Die, ghost depth: nat): seq<Line>
    requires EntryDefined(info, d, depth)
    decreases depth, 0, 0
  {
    match d.tag
    case Variable => [VarRow(info, d, depth)]
    case InlinedSubroutine => Scan(info, InlinedName(info, d), depth - 1)
    case _ => []
  }

  /** The lines of a run depend only on its entries before the first
      subprogram entry k: nothing after it is read. */
  lemma {:induction false} BodyStopsAtSubprogram(info: DebugInfo, ds: seq<Die>, depth: nat, k: nat)
    requires k <= |ds| && (k < |ds| ==> ds[k].tag.Subprogram?)
    requires forall j :: 0 <= j < k ==> !ds[j].tag.Subprogram?
    requires BodyDefined(info, ds, depth)
    ensures BodyDefined(info, ds[..k], depth)
    ensures Body(info, ds, depth) == Body(info, ds[..k], depth)
    decreases k
  {
    if k > 0 {
      TakeTail(ds, k);
      BodyStopsAtSubprogram(info, ds[1..], depth, k - 1);
    }
  }

  /** The variable entries of a run, in order, up to its first subprogram entry. */
  function Vars(ds: seq<Die>): seq<Die>
    decreases |ds|
  {
    if ds == [] || ds[0].tag.Subprogram? then []
    else if ds[0].tag.Variable? then [ds[0]] + Vars(ds[1..])
    else Vars(ds[1..])
  }

  /** With no inlined subroutine in a run, its lines are exactly one row per
      variable entry before the first subprogram entry, in order. */
  lemma {:induction false} BodyWithoutInlining(info: DebugInfo, ds: seq<Die>, depth: nat)
    requires BodyDefined(info, ds, depth)
    requires forall k :: 0 <= k < |ds| ==> !ds[k].tag.InlinedSubroutine?
    ensures |Body(info, ds, depth)| == |Vars(ds)|
    ensures forall i :: 0 <= i < |Vars(ds)| ==>
      RowDefined(info, Vars(ds)[i], depth) && Body(info, ds, depth)[i] == VarRow(info, Vars(ds)[i], depth)
    decreases |ds|
  {
    if ds != [] && !ds[0].tag.Subprogram? {
      TakeTail(ds, |ds|);
      BodyWithoutInlining(info, ds[1..], depth);
      if ds[0].tag.Variable? {
        assert Body(info, ds, depth) == [VarRow(info, ds[0], depth)] + Body(info, ds[1..], depth);
      } else {
        assert Body(info, ds, depth) == Body(info, ds[1..], depth);
      }
    }
  }

  lemma {:induction false} ScanDepthIrrelevant(info: DebugInfo, fnName: string, n1: nat, n2: nat)
    requires ScanDefined(info, fnName, n1) && ScanDefined(info, fnName, n2)
    ensures Scan(info, fnName, n1) == Scan(info, fnName, n2)
    decreases n1, 2, 0
  {
    var all := AllDies(info);
    match FunctionIndex(all, fnName)
    case None =>
    case Some(f) => BodyDepthIrrelevant(info, all[f + 1..], n1, n2);
  }

  lemma {:induction false} BodyDepthIrrelevant(info: DebugInfo, ds: seq<Die>, n1: nat, n2: nat)
    requires BodyDefined(info, ds, n1) && BodyDefined(info, ds, n2)
    ensures Body(info, ds, n1) == Body(info, ds, n2)
    decreases n1, 1, |ds|
  {
    if ds != [] && !ds[0].tag.Subprogram? {
      EntryDepthIrrelevant(info, ds[0], n1, n2);
      BodyDepthIrrelevant(info, ds[1..], n1, n2);
    }
  }

  lemma {:induction false} EntryDepthIrrelevant(info: DebugInfo, d: Die, n1: nat, n2: nat)
    requires EntryDefined(info, d, n1) && EntryDefined(info, d, n2)
    ensures EntryLines(info, d, n1) == EntryLines(info, d, n2)
    decreases n1, 0, 0
  {
    match d.tag
    case Variable => VarRowDepthIrrelevant(info, d, n1, n2);
    case InlinedSubroutine => ScanDepthIrrelevant(info, InlinedName(info, d), n1 - 1, n2 - 1);
    case _ =>
  }

  /** Scanning for a name no subprogram has yields no output, header included. */
  lemma ScanAbsent(info: DebugInfo, fnName: string, depth: nat)
    requires forall k :: 0 <= k < |AllDies(info)| ==> !IsFunctionNamed(AllDies(info)[k], fnName)
    ensures ScanDefined(info, fnName, depth)
    ensures Scan(info, fnName, depth) == []
  {
    FunctionIndexSpec(AllDies(info), fnName);
  }

  /** The subprogram fnName is first found at start - 1 among all entries. */
  ghost predicate PastMatch(info: DebugInfo, fnName: string, start: nat) {
    1 <= start <= |AllDies(info)| &&
    FunctionIndex(AllDies(info), fnName) == Some(start - 1)
  }

  /** What has been emitted past the match, followed by the lines still to
      come from the entries after `seen`, is the whole report. */
  ghost predicate Emitted(info: DebugInfo, fnName: string, depth: nat, seen: seq<Die>, start: nat, out: seq<Line>) {
    start <= |seen| <= |AllDies(info)| &&
    BodyDefined(info, AllDies(info)[start..], depth) &&
    BodyDefined(info, AllDies(info)[|seen|..], depth) &&
    out + Body(info, AllDies(info)[|seen|..], depth) == [Header(fnName)] + Body(info, AllDies(info)[start..], depth)
  }

  /** Where the pass of parse_file stands after the entries `seen`, a prefix of
      all entries: still searching with nothing emitted, or past the matching
      entry at start - 1 with the header and the lines of seen[start..] emitted. */
  ghost predicate ScanProgress(info: DebugInfo, fnName: string, depth: nat,
                               seen: seq<Die>, found: bool, start: nat, out: seq<Line>)
  {
    (!found ==> FunctionIndex(seen, fnName).None? && out == []) &&
    (found ==> PastMatch(info, fnName, start) && Emitted(info, fnName, depth, seen, start, out))
  }

  /** The report once the matching entry is known. */
  lemma ScanAt(info: DebugInfo, fnName: string, depth: nat, f: nat)
    requires ScanDefined(info, fnName, depth)
    requires FunctionIndex(AllDies(info), fnName) == Some(f)
    ensures f < |AllDies(info)| && BodyDefined(info, AllDies(info)[f + 1..], depth)
    ensures Scan(info, fnName, depth) == [Header(fnName)] + Body(info, AllDies(info)[f + 1..], depth)
  {
    FunctionIndexSpec(AllDies(info), fnName);
  }

  /** While searching, the next entry either is the match or leaves nothing emitted. */
  lemma SearchStep(info: DebugInfo, fnName: string, depth: nat, seen: seq<Die>, d: Die, rest: seq<Die>)
    requires AllDies(info) == seen + [d] + rest
    requires ScanDefined(info, fnName, depth)
    requires ScanProgress(info, fnName, depth, seen, false, 0, [])
    ensures IsFunctionNamed(d, fnName) ==>
      ScanProgress(info, fnName, depth, seen + [d], true, |seen| + 1, [Header(Name(d))])
    ensures !IsFunctionNamed(d, fnName) ==>
      ScanProgress(info, fnName, depth, seen + [d], false, 0, [])
  {
    var all := AllDies(info);
    if IsFunctionNamed(d, fnName) {
      assert all[|seen|] == d;
      FunctionIndexSpec(seen, fnName);
      forall j | 0 <= j < |seen| ensures !IsFunctionNamed(all[j], fnName) {
        assert all[j] == seen[j];
      }
      FunctionIndexAt(all, fnName, |seen|);
      ScanAt(info, fnName, depth, |seen|);
    } else {
      FunctionIndexExtend(seen, fnName, d);
    }
  }

  /** Past the match, an entry other than a subprogram adds its own lines. */
  lemma FoundStep(info: DebugInfo, fnName: string, depth: nat, seen: seq<Die>, d: Die, rest: seq<Die>,
                  start: nat, out: seq<Line>)
    requires AllDies(info) == seen + [d] + rest
    requires ScanProgress(info, fnName, depth, seen, true, start, out)
    requires !d.tag.Subprogram?
    ensures EntryDefined(info, d, depth)
    ensures ScanProgress(info, fnName, depth, seen + [d], true, start, out + EntryLines(info, d, depth))
  {
    var all := AllDies(info);
    assert all[|seen|..] == [d] + rest && all[|seen| + 1..] == rest;
    assert ([d] + rest)[0] == d && ([d] + rest)[1..] == rest;
    AppendAssoc(out, EntryLines(info, d, depth), Body(info, rest, depth));
  }

  /** Past the match, the next subprogram entry completes the report. */
  lemma StopStep(info: DebugInfo, fnName: string, depth: nat, seen: seq<Die>, d: Die, rest: seq<Die>,
                 start: nat, out: seq<Line>)
    requires AllDies(info) == seen + [d] + rest
    requires ScanDefined(info, fnName, depth)
    requires ScanProgress(info, fnName, depth, seen, true, start, out)
    requires d.tag.Subprogram?
    ensures out == Scan(info, fnName, depth)
  {
    var all := AllDies(info);
    assert all[|seen|..] == [d] + rest;
    assert ([d] + rest)[0] == d;
    assert out + [] == out;
    ScanAt(info, fnName, depth, start - 1);
  }

  /** Having passed all entries, what was emitted is the report. */
  lemma FinishScan(info: DebugInfo, fnName: string, depth: nat, found: bool, start: nat, out: seq<Line>)
    requires ScanDefined(info, fnName, depth)
    requires ScanProgress(info, fnName, depth, AllDies(info), found, start, out)
    ensures out == Scan(info, fnName, depth)
  {
    if found {
      var all := AllDies(info);
      assert all[|all|..] == [];
      assert out + [] == out;
      ScanAt(info, fnName, depth, start - 1);
    }
  }

  // ---- the output buffer ----

  class Report {
    var lines: seq<Line>

    constructor ()
      ensures lines == []
    {
      lines := [];
    }

    /** Appends the row of variable d (print_var). */
    method PrintVar(info: DebugInfo, d: Die, ghost depth: nat)
      requires RowDefined(info, d, depth)
      modifies this
      ensures lines == old(lines) + [VarRow(info, d, depth)]
      decreases depth
    {
      if IsAbstract(d) {
        var ti := FindTypeInfo(info, d.abstractOrigin.value);
        PrintVar(info, ti.value, depth - 1);
        return;
      }
      var typeInfo := FindTypeInfo(info, TypeValue(d));
      var typeString := TypeString(info, typeInfo.value, depth);
      var size := ByteSize(info, typeInfo.value, depth);
      var location := GetLocation(info, d);
      lines := lines + [Row(size, typeString, Name(d), location)];
    }

    /** Handles one entry past the match that is not a subprogram: a variable
        gets its row, an inlined subroutine the report of its origin. */
    method EmitEntry(info: DebugInfo, d: Die, ghost depth: nat)
      requires EntryDefined(info, d, depth)
      modifies this
      ensures lines == old(lines) + EntryLines(info, d, depth)
      decreases depth, 0
    {
      if d.tag.Variable? {
        PrintVar(info, d, depth);
      } else if d.tag.InlinedSubroutine? {
        var ti := FindTypeInfo(info, d.abstractOrigin.value);
        ParseFile(info, Name(ti.value), depth - 1);
      }
    }

    /** One entry of the pass: past the match, a subprogram entry ends the
        report (`done`) and any other entry adds its lines; before it, the
        entry that is the subprogram fnName starts the report with its header. */
    method Visit(info: DebugInfo, fnName: string, ghost depth: nat, d: Die, found0: bool,
                 ghost seen: seq<Die>, ghost rest: seq<Die>,
                 ghost start0: nat, ghost out0: seq<Line>, ghost base: seq<Line>)
        returns (found: bool, done: bool, ghost start: nat, ghost out: seq<Line>)
      requires AllDies(info) == seen + [d] + rest
      requires ScanDefined(info, fnName, depth)
      requires !found0 ==> start0 == 0
      requires ScanProgress(info, fnName, depth, seen, found0, start0, out0)
      requires lines == base + out0
      modifies this
      ensures done ==> lines == base + Scan(info, fnName, depth)
      ensures !done ==> lines == base + out && (!found ==> start == 0) &&
                        ScanProgress(info, fnName, depth, seen + [d], found, start, out)
      decreases depth, 2
    {
      found, done, start, out := found0, false, start0, out0;
      if found {
        if d.tag.Subprogram? {
          StopStep(info, fnName, depth, seen, d, rest, start, out);
          done := true;
          return;
        }
        FoundStep(info, fnName, depth, seen, d, rest, start, out);
        AppendAssoc(base, out, EntryLines(info, d, depth));
        out := out + EntryLines(info, d, depth);
        EmitEntry(info, d, depth);
      } else {
        SearchStep(info, fnName, depth, seen, d, rest);
        if IsFunctionNamed(d, fnName) {
          assert lines == base;
          found := true;
          lines := lines + [Header(Name(d))];
          start := |seen| + 1;
          out := [Header(Name(d))];
        }
      }
    }

    /** The pass over the entries `dies` of one unit, which sit between
        `before` and `after` among all entries, from the state reached after
        `before`; `done` says the report ended at a subprogram entry. */
    method ScanEntries(info: DebugInfo, fnName: string, ghost depth: nat, dies: seq<Die>, found0: bool,
                       ghost before: seq<Die>, ghost after: seq<Die>,
                       ghost start0: nat, ghost out0: seq<Line>, ghost base: seq<Line>)
        returns (found: bool, done: bool, ghost start: nat, ghost out: seq<Line>)
      requires AllDies(info) == before + dies + after
      requires ScanDefined(info, fnName, depth)
      requires !found0 ==> start0 == 0
      requires ScanProgress(info, fnName, depth, before, found0, start0, out0)
      requires lines == base + out0
      modifies this
      ensures done ==> lines == base + Scan(info, fnName, depth)
      ensures !done ==> lines == base + out && (!found ==> start == 0) &&
                        ScanProgress(info, fnName, depth, before + dies, found, start, out)
      decreases depth, 3
    {
      ghost var seen := before;
      found, done, start, out := found0, false, start0, out0;
      var j := 0;
      while j < |dies|
        invariant 0 <= j <= |dies|
        invariant seen == before + dies[..j]
        invariant lines == base + out
        invariant !found ==> start == 0
        invariant ScanProgress(info, fnName, depth, seen, found, start, out)
      {
        SplitAt(before, dies, after, j);
        found, done, start, out :=
          Visit(info, fnName, depth, dies[j], found, seen, dies[j + 1..] + after, start, out, base);
        if done {
          return;
        }
        TakeOneMore(dies, j);
        AppendAssoc(before, dies[..j], [dies[j]]);
        seen := seen + [dies[j]];
        j := j + 1;
      }
      TakeAll(dies);
    }

    /** Appends the report for fnName (parse_file): a two-state pass over all
        entries, unit by unit, that ends at the subprogram entry after the match. */
    method ParseFile(info: DebugInfo, fnName: string, ghost depth: nat)
      requires ScanDefined(info, fnName, depth)
      modifies this
      ensures lines == old(lines) + Scan(info, fnName, depth)
      decreases depth, 4
    {
      ghost var seen: seq<Die> := [];
      ghost var start: nat := 0;
      ghost var out: seq<Line> := [];
      var found := false;
      var i := 0;
      while i < |info.units|
        invariant 0 <= i <= |info.units|
        invariant seen == Flat(info.units[..i])
        invariant lines == old(lines) + out
        invariant !found ==> start == 0
        invariant ScanProgress(info, fnName, depth, seen, found, start, out)
      {
        var dies := PreOrder(info.units[i].top);
        FlatSplit(info.units, i);
        var done;
        found, done, start, out :=
          ScanEntries(info, fnName, depth, dies, found, seen, Flat(info.units[i + 1..]), start, out, old(lines));
        if done {
          return;
        }
        FlatPrefixStep(info.units, i);
        seen := seen + dies;
        i := i + 1;
      }
      TakeAll(info.units);
      FinishScan(info, fnName, depth, found, start, out);
    }
  }
}
