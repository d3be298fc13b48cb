# frame_larger_than — a Dafny model of the frame-size report

`frame_larger_than.py` reads the DWARF debugging information of a compiled
program and, for one named function, prints a header line and then one row per
local variable. Each row gives the byte size of the variable's type, the type
as a C-like string, the variable's name and its location as `REGISTER+OFFSET`.
Rows for the variables of functions inlined into it are spliced in where the
inlined copy appears. This project models that core as Dafny values and
methods and proves what the report contains.

- `dwarf.dfy` (module `Dwarf`) holds the data:
  - the tree of debugging information entries (DIEs), with the attributes the report reads;
  - the compilation units;
  - the pre-order enumeration of all entries, unit after unit, which `iter_CUs`/`iter_DIEs` walk.

  The tag predicates `is_fn` … `is_enum` are the discriminators of the `Tag`
  datatype (`d.tag.Subprogram?` and so on). `get_name` is `Name`,
  `get_type_value` is `TypeValue`, `is_abstract` is `IsAbstract`, and
  `is_fn_named`/`is_dw_fn` are `IsFunctionNamed`.
- `index.dfy` (module `DieIndex`) holds `find_type_info`:
  - `FindDie` is the first entry with a given offset;
  - `FindTypeInfo` is the nested loop over units and entries, proved to return it.
- `types.dfy` (module `Types`) holds three resolvers:
  - `get_array_count`, as the function `ArrayCount` and the loop `GetArrayCount`;
  - `get_type_string` (`TypeString`);
  - `get_byte_size` (`ByteSize`).
- `location.dfy` (module `Locations`) holds `get_location`: the function `Location` and the method `GetLocation`.
- `decimal.dfy` (module `Decimal`) holds the decimal rendering that `str()` gives counts and offsets.
- `scanner.dfy` (module `Scanner`) holds the report:
  - `VarRow` is the row `print_var` prints;
  - `Scan`/`Body` are the lines `parse_file` prints, as values;
  - the class `Report` holds the output buffer. Its methods `PrintVar` and `ParseFile` are the imperative originals, each proved to append exactly `VarRow` or `Scan`.
- `scenarios.dfy` (module `Scenarios`) holds small concrete trees with their reports worked out.

The original crashes on some malformed input. Each such case is a precondition of the model:
- `None` reaches `get_type_string` or `get_byte_size`;
- a subrange lacks `DW_AT_count`;
- an inlined entry lacks its origin;
- a pointer, array or const has a resolved target of a kind `get_type_string` does not render (it returns `None`, and `None + '*'` raises);
- the first location operation has no operand.

These preconditions are the ghost predicates `StringDefined`, `SizeDefined`,
`CountDefined`, `LocationDefined`, `RowDefined` and `ScanDefined`. Each takes a
ghost `depth` that bounds the chain of references followed. A cyclic chain
makes the original recurse until Python's recursion limit, and these
predicates exclude it. The `…DepthIrrelevant` lemmas show the results do not
depend on which bound is chosen.

Two consequences of the code are worth stating:
- An array without a subrange child renders with `[0]` (frame_larger_than.py:125-127), because `get_array_count` returns 0 (frame_larger_than.py:79).
- An inlined subroutine splices its origin's whole report, header line included, at the position of the inlined entry (frame_larger_than.py:195-198). That position can come before some of the enclosing function's own variables (`Scenarios.ReportOfInliner`).

## Model

| member | source | states |
|---|---|---|
| Dwarf.Name | frame_larger_than.py:60-64 | DW_AT_name, or "{anonymous}" when absent; the renderings that use it are stated by Types.NamedStrings and Types.EmptyTypeString |
| Dwarf.TypeValue | frame_larger_than.py:67-71 | DW_AT_type, or offset 0 when absent; Types.PointerToUnresolved covers the absent case |
| Dwarf.IsFunctionNamed | frame_larger_than.py:102-107 | an entry is a subprogram whose name, "{anonymous}" when missing, equals the requested name |
| Dwarf.PreOrder | frame_larger_than.py:113 | the entries of one unit in the order `iter_DIEs` yields them: each entry, then the subtrees of its children in order |
| Dwarf.Flat | frame_larger_than.py:112-113 | all entries, unit after unit in the order `iter_CUs` yields the units |
| DieIndex.FindDie | frame_larger_than.py:110-115 | the first entry of Flat whose offset is the requested one, or nothing; characterised by FindDieFound and FindDieAt |
| DieIndex.OffsetIndexSpec | frame_larger_than.py:110-115 | the position found holds an entry with the offset and no earlier entry has it; when none is found, no entry has it |
| DieIndex.FindDieFound | frame_larger_than.py:110-115 | lookup fails exactly when no entry of any unit has the offset; a found entry has it and belongs to the tree |
| DieIndex.FindDieAt | frame_larger_than.py:110-115 | the entry at position k is the result when it has the offset and no entry before k has |
| DieIndex.FindTypeInfo | frame_larger_than.py:110-115 | the nested loop over units and their pre-order entries returns the first entry with the offset, and nothing when none has it |
| Types.ArrayCount | frame_larger_than.py:74-79 | DW_AT_count of the first subrange child, or 0; characterised by ArrayCountOfFirstSubrange |
| Types.ArrayCountOfFirstSubrange | frame_larger_than.py:74-79 | the count is DW_AT_count of the first subrange child, and 0 when no child is a subrange |
| Types.GetArrayCount | frame_larger_than.py:74-79 | the loop over the children returns the count of the first subrange child, or 0 |
| Types.TypeString | frame_larger_than.py:118-145 | a string is produced exactly for pointer, array, const, struct, union, enum, base and typedef entries |
| Types.TypeStringDepthIrrelevant | frame_larger_than.py:118-145 | the string does not depend on the bound on the reference chain |
| Types.PointerToUnresolved | frame_larger_than.py:119-122 | a pointer whose target is not found, including one without DW_AT_type (offset 0), renders exactly "void*" |
| Types.DerivedStrings | frame_larger_than.py:119-133 | a pointer appends "*" to its target's string, an array appends "[count]", a const prefixes "const " |
| Types.ConstOfUnresolved | frame_larger_than.py:128-132 | a const whose target is not found renders as the empty string |
| Types.NamedStrings | frame_larger_than.py:134-145 | struct, union and enum render keyword and name, base and typedef their name, "{anonymous}" for a missing name, other kinds nothing |
| Types.EmptyTypeString | frame_larger_than.py:118-145 | the rendering is empty exactly for a const with no target, or for a base type or typedef whose name is empty |
| Types.ByteSize | frame_larger_than.py:82-95 | an explicit DW_AT_byte_size is the size, else a pointer has the address size, else other kinds than typedef, const and array have 0 |
| Types.ByteSizeDepthIrrelevant | frame_larger_than.py:82-95 | the size does not depend on the bound on the reference chain |
| Types.SizePriority | frame_larger_than.py:82-86 | DW_AT_byte_size wins for every kind, and a pointer's size is the address size whether or not its target resolves |
| Types.DerivedSizes | frame_larger_than.py:87-93 | without DW_AT_byte_size a typedef or const has its target's size and an array the element size times the count |
| Types.ArrayWithoutSubrange | frame_larger_than.py:90-93 | an array without a subrange child has size 0 and renders as its element string followed by "[0]" |
| Decimal.NatToString | frame_larger_than.py:127 | the rendering is non-empty, all digits, and starts with '0' only for zero itself |
| Decimal.NatToStringRoundTrip | frame_larger_than.py:127 | reading the decimal digits back gives the number |
| Decimal.NatToStringInjective | frame_larger_than.py:127 | different counts render differently |
| Decimal.IntToString | frame_larger_than.py:162 | the rendering is non-empty and starts with '-' exactly for negative offsets |
| Decimal.IntToStringRoundTrip | frame_larger_than.py:162 | the rendering of an offset is its decimal digits, after a '-' when it is negative: read back they give its absolute value |
| Locations.Location | frame_larger_than.py:150-167 | the location is empty exactly when there is no DW_AT_location, it is a location list, or its expression has no operation |
| Locations.LocationOfFirstOp | frame_larger_than.py:159-166 | a decoded location is the register named by opcode - 0x70, "+", and the first operand in decimal |
| Locations.LocationIgnoresLaterOps | frame_larger_than.py:159-166 | operations after the first do not change the location |
| Locations.GetLocation | frame_larger_than.py:150-167 | the loop over the parsed operations, left after its first iteration, yields Location |
| Scanner.VarRow | frame_larger_than.py:170-183 | the line built for a variable is a row |
| Scanner.VarRowDepthIrrelevant | frame_larger_than.py:170-183 | the row does not depend on the bound on the abstract-origin and type chains |
| Scanner.AbstractOriginRow | frame_larger_than.py:172-176 | a variable with DW_AT_abstract_origin gives exactly the row of its origin |
| Scanner.DirectRow | frame_larger_than.py:177-183 | otherwise the row is the size and string of the declared type, the variable's name and its location |
| Scanner.Report.PrintVar | frame_larger_than.py:170-183 | printing a variable appends exactly its row to the output |
| Scanner.FunctionIndexSpec | frame_larger_than.py:201-202 | the match is a subprogram with the requested name and no earlier entry is one; when none is found, no entry is |
| Scanner.FunctionIndexAt | frame_larger_than.py:201-202 | the first subprogram with the name, in unit-then-pre-order, is the match |
| Scanner.Scan | frame_larger_than.py:186-203 | nothing when no subprogram has the name; otherwise the header and the lines of the entries after the first match; characterised by ScanShape, ScanAbsent and BodyStopsAtSubprogram |
| Scanner.Body | frame_larger_than.py:189-198 | the lines of a run of entries up to its first subprogram entry; characterised by BodyStopsAtSubprogram and BodyWithoutInlining |
| Scanner.EntryLines | frame_larger_than.py:193-198 | a variable's row, the whole report of an inlined subroutine's origin, nothing for other entries; Report.EmitEntry appends exactly these |
| Scanner.ScanShape | frame_larger_than.py:186-203 | the report is empty exactly when no subprogram has the name, and otherwise starts with the header for that name |
| Scanner.ScanAbsent | frame_larger_than.py:186-203 | a name no subprogram has gives no output, header included, on any input |
| Scanner.BodyStopsAtSubprogram | frame_larger_than.py:190-192 | the lines after the match depend only on the entries before the next subprogram entry |
| Scanner.BodyWithoutInlining | frame_larger_than.py:190-194 | without inlined subroutines the lines are exactly one row per variable entry before the next subprogram entry, in order (Vars) |
| Scanner.ScanDepthIrrelevant | frame_larger_than.py:195-198 | the report does not depend on the bound on inlining depth |
| Scanner.BodyDepthIrrelevant | frame_larger_than.py:189-198 | the lines after the match do not depend on the bound on inlining depth |
| Scanner.EntryDepthIrrelevant | frame_larger_than.py:193-198 | the lines of one entry do not depend on the bound on inlining depth |
| Scanner.Report.EmitEntry | frame_larger_than.py:193-198 | handling an entry after the match appends its row, or the whole report of the inlined origin |
| Scanner.Report.Visit | frame_larger_than.py:190-203 | one step of the two-state pass keeps the output equal to the emitted prefix of the report, or completes it at the next subprogram |
| Scanner.Report.ScanEntries | frame_larger_than.py:189-203 | the pass over one unit's entries keeps the same invariant, or completes the report |
| Scanner.Report.ParseFile | frame_larger_than.py:186-203 | the pass over all units appends exactly the report for the name |
| Scenarios.ReportOfF | frame_larger_than.py:186-203 | F with a pointer-to-struct variable V and an int variable W at DW_OP_breg0 0 reports its header, (address size, "struct S*", "V", "") and (4, "int", "W", "R0+0") |
| Scenarios.ReportOfAbsent | frame_larger_than.py:201-203 | scanning for a name that is not present yields nothing |
| Scenarios.ReportOfInliner | frame_larger_than.py:195-198 | F that inlines G ahead of its own variable Y reports F's header, then G's header and row for X, then Y's row |
| Scenarios.PointerToConst | frame_larger_than.py:119-133 | pointer to const int renders "const int*"; the const has the int's size and the pointer the address size |

## Left out

- Opening the ELF file, the checks for debugging information, `ELFError` handling and the command-line argument checks (frame_larger_than.py:206-219) are input/output plumbing.
- The pyelftools parsers (`LocationParser`, `DWARFExprParser`) and the decoding of raw attribute bytes: the model takes their result as input, a location list or a list of operations with their operands.
- `describe_reg_name(...).upper()` is a foreign architecture table. It is the `registerName` field of `DebugInfo`, a function from register number to name.
- The UTF-8 decoding of names: names are already strings.
- The `lru_cache` on `find_type_info`: lookup is a pure function of the tree and the offset, so caching cannot change a result.
- The `%-30s` column padding and the tab-separated line format: rows are values, and a type that cannot be rendered is `None` in its row.
- The diagnostic for an unsupported type kind (frame_larger_than.py:143-145) goes to standard error and is not modelled.
- The warning for a const whose target is not found (frame_larger_than.py:131) is printed to standard output. It lands in the report just before that variable's row, for instance for a variable of type `const void *`. The model omits it: `Report.PrintVar` appends only the row.
- What was printed before a crash: inputs on which the original raises an exception or recurses without end are excluded by the preconditions above, not modelled as partial output.
- `Other(tagName)` stands only for kinds other than the twelve named ones; a tree that spelled a named kind as `Other` would be unlike anything the loader produces.
- Scanner.Report is not split the way the source is: the inner loop of `parse_file` and the handling of one entry are separate methods (`ScanEntries`, `Visit`, `EmitEntry`) that the loop in `ParseFile` calls. They keep its order and early return.
- Locations.GetLocation: the source's `return` inside the loop is a flag that ends the loop after its first iteration.
- Scanner.VarRow: its own contract says only that the line is a row; what the row holds is stated by AbstractOriginRow and DirectRow.
