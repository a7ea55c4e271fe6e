# Calling-convention layer of the code generator (CGCall.cpp)

This project models how the code generator turns a C function signature into
its lowered (machine-level) form, and proves properties of that model.

1. **Disposition.** Every return value and argument gets an `ABIArgInfo`
   disposition:
   - `Direct`: passed as its own lowering.
   - `Indirect`: passed in memory, through a hidden pointer or byval.
   - `Ignore`: nothing is passed.
   - `Coerce`: passed as a different register type.
   - `Expand`: a struct split into one parameter per leaf member.

   The disposition is chosen by the target's convention:
   - the x86-64 System V classification (section 3.2.3 of the System V
     AMD64 psABI), with its register budget of six integer and eight SSE
     registers;
   - the 32-bit x86 convention, with its Darwin variant;
   - the ARM convention;
   - a default convention.
2. **Signature record.** `CodeGenTypes` keeps the record of each signature,
   computed once per signature.
3. **Physical signature.** The parameter list, the result type and the
   attribute list are derived from the dispositions.
4. **Call and entry code.** The caller builds the physical arguments
   (`EmitCall`). The callee rebuilds its parameters from them
   (`EmitFunctionProlog`) and returns a value (`EmitFunctionEpilog`). Both
   sides go through the coerced load and store, and through struct
   expansion.
5. **`va_arg`.** The code emitted for `va_arg` on x86-64 (register save area
   and overflow area) and on the pointer-bumping targets.

The model is split into these files:

| file | contents |
|---|---|
| `types.dfy` | semantic types (sizes, alignments and offsets in bits), lowered types, `ABIArgInfo` |
| `record_shape.dfy` | empty structs, single-element structs, the leaves of an expandable struct |
| `x86_64_classify.dfy` | eightbyte classification: merge, bit-fields, post-merge |
| `x86_64_abi.dfy` | x86-64 return and argument dispositions, register budget |
| `other_abi.dfy` | 32-bit x86, ARM and default conventions |
| `abi_select.dfy` | choice of convention from the target description |
| `registry.dfy` | the signature record (`FunctionInfo`) and its cache (`CodeGenTypes`) |
| `lowering.dfy` | physical parameter list and lowered function type |
| `attributes.dfy` | attribute list |
| `coerce.dfy` | coerced load and store |
| `expansion.dfy` | struct expansion and reconstruction |
| `marshal.dfy` | caller and callee sides of a call, and their round trips |
| `vaarg.dfy` | `va_arg` |

### Modelling decisions

- **Source assertions.** Most assertions in the source are modelled as a
  build without assertions would run them: the code after the assertion
  still runs. Where it matters, lemmas say whether an assertion can fire.
  The exceptions are these:
  - `Coercion.CoercedLoad` and `Coercion.CoercedStore` return `Failure` where
    the size assertions at lines 1407 and 1444 of `lib/CodeGen/CGCall.cpp`
    fail;
  - `X86_64Classify.BitFieldClassesAsWritten` returns `None` where the
    assertion at line 680 fails; `X86_64Classify.BitFieldBy` then goes on
    as the code does without assertions, with the high eightbyte Integer;
  - `Marshal.EmitFunctionProlog` and the members it calls require
    `Conforms`: one physical parameter per slot of the lowered signature,
    each of the kind its disposition calls for. The assertions at lines
    1677, 1727 and 1750 check the count;
  - `Marshal.EmitCallArgs` and `Marshal.EmitCall` require `ArgsFit`, one
    argument per parameter, which the assertion at line 1817 checks.
- **Two rule sets.** The classification is written once, as
  `X86_64Classify.ClassifyBy`, over a choice of merge and bit-field rules.
  `Classify` uses the psABI's rules and `ClassifyAsWritten` the code's
  rules; they differ only on the two findings below.
- **Padded sizes.** The target's padded size of a lowered type is a
  parameter, `sizeOf`.
- **Value contents.** A value crossing a call is modelled twice, as an
  abstract `Value` and as its byte image (`Arg.image`).

## Model

Source paths are relative to the repository root.

| member | source | states |
|---|---|---|
| RecordShape.EmptyIffNoLeaves | lib/CodeGen/CGCall.cpp:146-160 | a type is an empty struct exactly when its recursive flattening succeeds with no leaves (a flexible array member makes it non-empty) |
| RecordShape.SingleElementIsOnlyLeaf | lib/CodeGen/CGCall.cpp:170-199 | the single-element search returns x exactly when flattening the struct yields the one leaf x (empty members skipped, a second leaf or an unflattenable member refuses) |
| RecordShape.LeavesAreFlattening | lib/CodeGen/CGCall.cpp:1306-1327 | the leaves an expandable struct is expanded into are exactly its flattening |
| RecordShape.BasicStructExpandsToFields | lib/CodeGen/CGCall.cpp:201-227 | a struct whose members are all 32/64-bit builtins or pointers and no bit-fields is expandable, and its leaves are its members in order |
| X86_64Classify.Merge | lib/CodeGen/CGCall.cpp:459-498 | the psABI merge rules: NoClass is neutral, Memory absorbs, Integer wins over everything but Memory, and Memory otherwise only results from two different classes one of which is X87, X87Up or ComplexX87 |
| X86_64Classify.MergeCommutes | lib/CodeGen/CGCall.cpp:484-497 | the corrected merge gives the same class whatever the order of the two operands |
| X86_64Classify.MergeAsWritten | lib/CodeGen/CGCall.cpp:484-497 | the merge as written gives Memory exactly when the field is Memory, or the field is X87, X87Up or ComplexX87 and the accumulated class differs and is neither NoClass nor Integer; an X87-family accumulated class is otherwise replaced by SSE |
| X86_64Classify.MergeAsWrittenIsOrderDependent | lib/CodeGen/CGCall.cpp:484-497 | merging X87 then SSE gives SSE while SSE then X87 gives Memory as written; the corrected merge gives Memory both ways |
| X86_64Classify.MergeAgreesAwayFromX87 | lib/CodeGen/CGCall.cpp:459-498 | when the accumulated class is not in the X87 family the corrected merge and the merge as written agree |
| X86_64Classify.MeetsIff | lib/CodeGen/CGCall.cpp:671-686 | a bit-field meets eightbyte k exactly when it has width and its bit range overlaps bits 64k to 64k+63 |
| X86_64Classify.BitFieldClasses | lib/CodeGen/CGCall.cpp:671-686 | the corrected bit-field rule: each eightbyte is Integer exactly when the bit-field's bits meet it, and NoClass otherwise |
| X86_64Classify.BitFieldClassesAsWritten | lib/CodeGen/CGCall.cpp:671-686 | the bit-field rule as written (unsigned 64-bit end offset) has no result (its assertion fires) exactly when the field starts beyond the first eightbyte and its wrapped end lies in another eightbyte |
| X86_64Classify.BitFieldRulesAgree | lib/CodeGen/CGCall.cpp:671-686 | for a bit-field of non-zero width inside 128 bits the rule as written and the corrected rule agree |
| X86_64Classify.ZeroWidthBitFieldAsWritten | lib/CodeGen/CGCall.cpp:671-686 | as written a zero-width bit-field makes both eightbytes Integer at offset 0, the low one at offsets 1-63 and the high one at offsets 65-127, and fires the assertion at offset 64; the corrected rule gives NoClass for both |
| X86_64Classify.MergeBy | lib/CodeGen/CGCall.cpp:459-498 | under either rules, NoClass is neutral, Memory absorbs, Integer wins over everything but Memory, and Memory otherwise needs two different classes one of which is in the X87 family |
| X86_64Classify.BitFieldBy | lib/CodeGen/CGCall.cpp:671-686 | under either rules a bit-field contributes only Integer or NoClass to each eightbyte, the written rule's failed assertion going on with the high eightbyte Integer |
| X86_64Classify.ClassifyBy | lib/CodeGen/CGCall.cpp:500-712 | under either rules, the classification of a type at an offset never puts SSEUp or X87Up low nor X87 high, ComplexX87 appears in both halves together and only for types over 128 bits, an SSEUp high half comes with SSE or Memory low and a type of at least 128 bits, and at offsets below 64 a Memory high half forces a Memory low half |
| X86_64Classify.PostMerge | lib/CodeGen/CGCall.cpp:707-710 | the psABI post-merger cleanup: a Memory high half makes the whole Memory, and an SSEUp high half not preceded by SSE becomes SSE; nothing else changes |
| X86_64Classify.FoldFields | lib/CodeGen/CGCall.cpp:627-711 | merging the members of a record from member i on keeps the classes within their allowed ranges, and a misaligned member makes the low half Memory |
| X86_64Classify.FoldFieldsAdvance | lib/CodeGen/CGCall.cpp:658-692 | one turn of the member loop over an aligned member or a bit-field: it stops with the merged classes when either half is Memory, and otherwise goes on to the next member from classes that may still be merged |
| X86_64Classify.ScanStopsBeforeOrAt | lib/CodeGen/CGCall.cpp:644-692 | with a misaligned non-bit-field member ahead, the member scan ends at it or earlier with a Memory half |
| X86_64Classify.MisalignedMemberMakesMemory | lib/CodeGen/CGCall.cpp:648-656 | a record with a non-bit-field member at an offset that is not a multiple of its alignment has a Memory low half, under either rules |
| X86_64Classify.FoldElems | lib/CodeGen/CGCall.cpp:592-626 | merging the elements of a constant array keeps the classes within their allowed ranges, and an SSEUp high half only for arrays of at least 128 bits |
| X86_64Classify.ClassifyRulesAgree | lib/CodeGen/CGCall.cpp:459-712 | for a type with no long double anywhere and no zero-width bit-field, the classification as written equals the psABI's, and neither half is X87 or X87Up |
| X86_64Classify.FoldFieldsRulesAgree | lib/CodeGen/CGCall.cpp:627-711 | on such a record, from any accumulated classes free of X87 and X87Up, the member scans under the two rules give the same result, free of X87 and X87Up |
| X86_64Classify.FoldElemsRulesAgree | lib/CodeGen/CGCall.cpp:592-626 | on such an array, the element merges under the two rules give the same result, free of X87 and X87Up |
| X86_64Classify.UnionOfLongDoubleAndFloat | lib/CodeGen/CGCall.cpp:484-497 | union { long double x; float f; } classifies as (SSE, X87Up) as written and as (Memory, X87Up) under the psABI |
| X86_64Classify.FloatThenZeroWidthBitField | lib/CodeGen/CGCall.cpp:671-689 | struct { float f; int : 0; } classifies as (Integer, NoClass) as written and as (SSE, NoClass) under the psABI |
| X86_64ABI.GetCoerceResult | lib/CodeGen/CGCall.cpp:714-735 | coercion to i64 of an integer or pointer, or to double of a float or double, is Direct; every other case is Coerce to the requested type |
| X86_64ABI.ClassifyReturnType | lib/CodeGen/CGCall.cpp:737-828 | a return is Ignore exactly when its low class is NoClass, Indirect (alignment 0) exactly when it is Memory, never Expand, Direct exactly for integers, enums, pointers, float and double, and a Coerce carries the register image of the two classes |
| X86_64ABI.ClassifyArgumentType | lib/CodeGen/CGCall.cpp:830-914 | an argument is Ignore exactly on NoClass, Indirect exactly on Memory, X87 or ComplexX87 and then needs no registers; it is Direct exactly for integers, enums, pointers, float and double; otherwise it needs one or two registers counted by class, and a Coerce carries the register image |
| X86_64ABI.ArgumentMatchesReturn | lib/CodeGen/CGCall.cpp:737-914 | outside the X87 classes an argument gets the same disposition as a return value of the same type |
| X86_64ABI.ScalarDispositions | lib/CodeGen/CGCall.cpp:517-532 | integers and pointers are Direct in one integer register, float and double Direct in one SSE register |
| X86_64ABI.VectorDispositions | lib/CodeGen/CGCall.cpp:538-569 | a 128-bit vector classifies as (SSE, SSEUp) and is returned and passed as <2 x double> in one SSE register (lines 812 and 909); a <1 x double> vector classifies as Memory and is returned and passed in memory |
| X86_64ABI.LongDoubleAndVoid | lib/CodeGen/CGCall.cpp:517-532 | void is ignored; long double is returned as x86_fp80 and passed in memory |
| X86_64ABI.MisalignedMemberPassedInMemory | lib/CodeGen/CGCall.cpp:648-656 | a record with a misaligned non-bit-field member is returned and passed Indirect with alignment 0, taking no registers |
| X86_64ABI.LargeAggregatesInMemory | lib/CodeGen/CGCall.cpp:592-640 | a struct or array over 128 bits, or a struct with a flexible array member, is returned and passed Indirect |
| X86_64ABI.ComplexLongDouble | lib/CodeGen/CGCall.cpp:570-591 | complex long double is returned as a pair of x86_fp80 and passed in memory |
| X86_64ABI.TwoFloatStruct | lib/CodeGen/CGCall.cpp:627-735 | struct { float; float; } is classified (SSE, NoClass) and coerced to one double in one SSE register |
| X86_64ABI.LongAndDoubleStruct | lib/CodeGen/CGCall.cpp:627-914 | struct { long; double; } is classified (Integer, SSE) and coerced to { i64, double } in one integer and one SSE register |
| X86_64ABI.TwentyByteStruct | lib/CodeGen/CGCall.cpp:627-711 | a struct of five ints is classified (Memory, NoClass) and returned and passed Indirect |
| X86_64ABI.EmptyLowEightbyte | lib/CodeGen/CGCall.cpp:744-747 | an empty one-byte (8-bit) member followed by a double at bit 64 classifies as (NoClass, SSE), which the return and argument code only tolerate by ignoring the argument |
| X86_64ABI.BudgetAfter | lib/CodeGen/CGCall.cpp:916-940 | the free register counts after assigning a prefix of the arguments never exceed six integer and eight SSE registers |
| X86_64ABI.Assigned | lib/CodeGen/CGCall.cpp:924-939 | an argument's final disposition is its classification, or Indirect(0) when the registers it needs are not free |
| X86_64ABI.RegistersNeverOverCommitted | lib/CodeGen/CGCall.cpp:916-940 | the registers used plus those left free are exactly six integer and eight SSE registers |
| X86_64ABI.AssignmentIsStable | lib/CodeGen/CGCall.cpp:924-939 | arguments after position i do not change the disposition of argument i (assignment is left to right) |
| X86_64ABI.RejectedArgumentTakesNothing | lib/CodeGen/CGCall.cpp:933-938 | an argument that does not fit the free registers goes to memory and takes no register, even partly |
| X86_64ABI.IntegerArgumentsBudget | lib/CodeGen/CGCall.cpp:916-940 | n integer or pointer arguments leave max(6-n, 0) integer and all eight SSE registers free |
| X86_64ABI.SeventhIntegerGoesToMemory | lib/CodeGen/CGCall.cpp:916-940 | with integer and pointer arguments only, the first six are Direct and every later one Indirect |
| X86_32ABI.ElementImage | lib/CodeGen/CGCall.cpp:277-325 | a single element has a register image exactly when it is a builtin integer, a float, a double or a pointer |
| X86_32ABI.ClassifyReturnType | lib/CodeGen/CGCall.cpp:277-325 | void is Ignore and scalars Direct; off Darwin every non-complex aggregate is Indirect; on Darwin a single float, double, integer or pointer element is returned as that element and other small structs as an integer of their size (8, 16, 32 or 64 bits), and in memory when their size is any other; complex types take the same integer coercion on every target |
| X86_32ABI.ClassifyArgumentType | lib/CodeGen/CGCall.cpp:327-354 | non-aggregates are Direct; an empty struct is Ignore; a struct of at most 128 bits whose members are all 32/64-bit builtins or pointers is Expand; other aggregates Indirect; never Coerce |
| X86_32ABI.ExpandedArgumentIsFlat | lib/CodeGen/CGCall.cpp:340-348 | an expanded argument's leaves are exactly its members, each a 32/64-bit builtin or pointer |
| X86_32ABI.DarwinSmallStructReturns | lib/CodeGen/CGCall.cpp:277-325 | on Darwin struct { float; } is returned as float and struct { short; short; } as i32 (in memory elsewhere), a 48-bit struct of shorts is returned in memory on every x86-32 target, and _Complex float is returned as i64 on every x86-32 target |
| ARMABI.ClassifyArgumentType | lib/CodeGen/CGCall.cpp:1181-1202 | non-aggregates are Direct; an aggregate is coerced to a packed array of 32-bit words (64-bit words when aligned beyond 32 bits) just covering its size |
| ARMABI.ClassifyReturnType | lib/CodeGen/CGCall.cpp:1204-1218 | void is Ignore, scalars Direct, aggregates of at most 32 bits coerced to i32, larger aggregates Indirect |
| DefaultABI.ClassifyReturnType | lib/CodeGen/CGCall.cpp:1245-1254 | void is Ignore, aggregates Indirect, everything else Direct |
| DefaultABI.ClassifyArgumentType | lib/CodeGen/CGCall.cpp:1256-1263 | aggregates are Indirect and everything else Direct |
| TargetABI.ContainsIff | lib/CodeGen/CGCall.cpp:1270-1291 | the substring search on the target triple succeeds exactly when the needle occurs at some position |
| TargetABI.SelectABI | lib/CodeGen/CGCall.cpp:1270-1291 | x86 with 32-bit pointers is the 32-bit convention (Darwin exactly when the triple mentions darwin), x86 with 64-bit pointers is x86-64, arm is ARM, and anything else the default |
| TargetABI.ReturnInfo | lib/CodeGen/CGCall.cpp:241-274 | under every convention a return is never Expand and void is Ignore |
| TargetABI.ArgInfo | lib/CodeGen/CGCall.cpp:241-274 | under every convention an Expand argument is expandable and a Direct argument is not an aggregate |
| TargetABI.OnlyX86_32Expands | lib/CodeGen/CGCall.cpp:327-354 | only the 32-bit x86 convention expands arguments |
| TargetABI.ScalarsAreDirect | lib/CodeGen/CGCall.cpp:916-940 | scalar arguments are Direct, except on x86-64 where they go to memory once registers run out |
| Registry.FunctionInfo.constructor | lib/CodeGen/CGCall.cpp:1295-1302 | a new record holds the signature's types with every disposition at its default |
| Registry.ComputedRecordsLower | lib/CodeGen/CGCall.cpp:916-940 | a computed record has one disposition per argument, every Expand argument can be expanded and the return is not Expand |
| Registry.ClassifyNext | lib/CodeGen/CGCall.cpp:924-939 | one turn of computeInfo's loop gives argument k its final disposition and leaves the register budget of the first k+1 arguments |
| Registry.ComputeInfo | lib/CodeGen/CGCall.cpp:916-940 | after computeInfo the record holds the return and argument dispositions the convention gives the signature |
| Registry.CodeGenTypes.constructor | lib/CodeGen/CGCall.cpp:1270-1291 | a new type cache has no convention chosen and no records |
| Registry.CodeGenTypes.GetABIInfo | lib/CodeGen/CGCall.cpp:1270-1291 | the convention is chosen from the target once and cached; the records are untouched |
| Registry.CodeGenTypes.GetFunctionInfo | lib/CodeGen/CGCall.cpp:93-112 | a known signature returns its existing record and changes nothing; a new one gets a fresh, computed record added under its signature |
| Registry.LookupTwice | lib/CodeGen/CGCall.cpp:93-112 | asking twice for the same signature returns the same record, for that signature and holding the convention's dispositions, and the cache then maps the signature to that record |
| Lowering.SretSlots | lib/CodeGen/CGCall.cpp:1461-1463 | the hidden return pointer is present exactly when the return is Indirect |
| Lowering.ArgSlots | lib/CodeGen/CGCall.cpp:1498-1525 | an argument takes no physical parameter when ignored, one per leaf when expanded and one otherwise, all owned by that argument |
| Lowering.ArgSlotStart | lib/CodeGen/CGCall.cpp:1465-1528 | argument i's first physical parameter lies within the parameter list |
| Lowering.SlotsBelongToTheirArgument | lib/CodeGen/CGCall.cpp:1465-1528 | argument i owns exactly the next ArgSlots positions after argument i-1's, in argument order |
| Lowering.SretSlotIsFirst | lib/CodeGen/CGCall.cpp:1481-1486 | the first physical parameter is the hidden return pointer exactly when the return is Indirect, it is then a pointer to the lowering of the return type, and argument 0 starts after it |
| Lowering.OwnersAreArguments | lib/CodeGen/CGCall.cpp:1465-1528 | without an Indirect return every physical parameter belongs to an argument |
| Lowering.ResultType | lib/CodeGen/CGCall.cpp:1469-1496 | the lowered result is void for an Indirect or ignored return, the coerced type for Coerce, and the value's lowering otherwise |
| Lowering.GetExpandedTypes | lib/CodeGen/CGCall.cpp:1306-1327 | expanding a struct appends the lowering of each of its leaves, in order |
| Lowering.GetFunctionType | lib/CodeGen/CGCall.cpp:1465-1528 | the lowered function type's parameters are exactly the types of the physical parameter list, and its result is ResultType |
| Attributes.DeclFunctionAttrs | lib/CodeGen/CGCall.cpp:1536-1545 | nothrow, noreturn, pure and const on the declaration become nounwind, noreturn, readonly and readnone, and nothing else |
| Attributes.ExtensionAttrs | lib/CodeGen/CGCall.cpp:1552-1558 | a promotable integer gets signext when signed and zeroext when unsigned; other types get no extension |
| Attributes.ArgAttrs | lib/CodeGen/CGCall.cpp:1587-1623 | an argument is byval exactly when Indirect, with an alignment attribute exactly when its alignment is non-zero; a Direct argument gets sext when it is a signed promotable integer, zext when it is another promotable integer, and nothing otherwise; Coerce, Ignore and Expand arguments get nothing |
| Attributes.ReturnEntries | lib/CodeGen/CGCall.cpp:1548-1580 | an Indirect return puts sret and noalias on parameter 1; a Direct promotable integer return gets sext when signed and zext otherwise, on the return; any other return adds no entry |
| Attributes.PromotableArgumentExtended | lib/CodeGen/CGCall.cpp:1602-1609 | a Direct promotable integer argument has exactly one entry, sext when signed and zext otherwise, on its own first physical parameter, and the function's attribute list contains it |
| Attributes.PromotableReturnExtended | lib/CodeGen/CGCall.cpp:1552-1558 | the attribute list of a function with a Direct promotable integer return has sext (signed) or zext (otherwise) on the return |
| Attributes.FunctionAttrs | lib/CodeGen/CGCall.cpp:1533-1630 | the function gets readonly or readnone exactly when the declaration asks for it and neither an sret return nor a byval argument writes memory; nounwind and noreturn come from the declaration |
| Attributes.ReturnAttributes | lib/CodeGen/CGCall.cpp:1547-1580 | the return's entries (sret and noalias on parameter 1, or an extension on the result) and the first argument index after the hidden pointer |
| Attributes.AttributeStep | lib/CodeGen/CGCall.cpp:1582-1627 | one turn of the argument loop adds argument k's entries, moves the index past its physical parameters and drops readonly/readnone after a byval |
| Attributes.ConstructAttributeList | lib/CodeGen/CGCall.cpp:1530-1631 | the attribute list is the return entries, the argument entries in order, and the function attributes |
| Attributes.EntriesLandOnTheirParameters | lib/CodeGen/CGCall.cpp:1581-1628 | an argument's attribute entry names a physical parameter that belongs to that argument |
| Attributes.SretEntryOnHiddenPointer | lib/CodeGen/CGCall.cpp:1561-1565 | for an Indirect return the sret/noalias entry is on parameter 1, which is the hidden pointer |
| Coercion.CoercedLoad | lib/CodeGen/CGCall.cpp:1390-1420 | loading at a type of at least the source's size succeeds, keeps the source bytes and leaves the rest undefined; a smaller type is refused |
| Coercion.CoercedStore | lib/CodeGen/CGCall.cpp:1427-1457 | storing succeeds exactly when the value has at least the destination's size, and the destination receives its first bytes |
| StructExpansion.Piece | lib/CodeGen/CGCall.cpp:1366-1381 | a member value gives as many scalar physical arguments as it has leaves |
| StructExpansion.ExpansionUpTo | lib/CodeGen/CGCall.cpp:1366-1381 | the first i members give LeafCount(t, i) scalar physical arguments |
| StructExpansion.Expansion | lib/CodeGen/CGCall.cpp:1357-1382 | an expanded struct value gives exactly one scalar physical argument per leaf |
| StructExpansion.ExpansionInjective | lib/CodeGen/CGCall.cpp:1329-1382 | two values of a type with the same expansion are equal, so the callee can rebuild what the caller split |
| StructExpansion.ExpandTypeToArgs | lib/CodeGen/CGCall.cpp:1357-1382 | the caller appends exactly the expansion of the value |
| StructExpansion.ExpandTypeFromArgs | lib/CodeGen/CGCall.cpp:1329-1355 | the callee rebuilds a value of the type whose expansion is exactly the arguments consumed, and returns the position just after them |
| StructExpansion.RebuildNext | lib/CodeGen/CGCall.cpp:1339-1352 | one turn of the rebuild loop: member i is rebuilt from the arguments after those of the members before it |
| StructExpansion.ExpandMember | lib/CodeGen/CGCall.cpp:1346-1351 | a nested struct member is rebuilt recursively and a scalar member takes one argument |
| Marshal.CallPiece | lib/CodeGen/CGCall.cpp:1825-1874 | an argument's physical arguments: the call fails exactly when a coerced argument would lose bytes; otherwise there are as many as its disposition gives it |
| Marshal.SendOne | lib/CodeGen/CGCall.cpp:1825-1874 | one argument appends exactly its physical arguments |
| Marshal.SendNext | lib/CodeGen/CGCall.cpp:1806-1875 | one turn of the caller's loop keeps the arguments already placed and places argument k at ArgSlotStart(v, k) |
| Marshal.EmitCallArgs | lib/CodeGen/CGCall.cpp:1806-1875 | the caller's physical arguments are built exactly when no coerced argument loses bytes, and then hold every argument's piece at its own positions |
| Marshal.ReceiveOne | lib/CodeGen/CGCall.cpp:1657-1748 | the callee's handling of one argument's physical parameters succeeds exactly when a coerced store loses no bytes, and consumes exactly its parameters |
| Marshal.ReceiveAt | lib/CodeGen/CGCall.cpp:1657-1748 | argument k is received from its own positions and the cursor moves to argument k+1's |
| Marshal.ReceiveNext | lib/CodeGen/CGCall.cpp:1657-1748 | one turn of the prolog's loop keeps what was received and adds argument k |
| Marshal.EmitFunctionProlog | lib/CodeGen/CGCall.cpp:1633-1751 | the callee skips the hidden return pointer, receives every argument from its own positions, consumes all physical parameters, and fails exactly when a coerced store would be short |
| Marshal.CalleeReceivesWhatCallerSent | lib/CodeGen/CGCall.cpp:1633-1875 | whatever the caller sends, the callee accepts, and every argument it receives equals what was sent (the value, or its bytes for Coerce) |
| Marshal.PassArguments | lib/CodeGen/CGCall.cpp:1633-1875 | caller and callee together deliver every argument unchanged, and fail exactly when a coerced argument would lose bytes |
| Marshal.EmitFunctionEpilog | lib/CodeGen/CGCall.cpp:1753-1798 | the callee returns a value for Direct or Coerce, stores through the hidden pointer for Indirect, returns nothing otherwise, and fails exactly when a coerced return would lose bytes |
| Marshal.ResultOfCall | lib/CodeGen/CGCall.cpp:1900-1959 | after a noreturn call or an ignored return the result is undefined; a Coerce result fails exactly when the returned bytes are short of the value's size |
| Marshal.CallerReceivesWhatCalleeReturned | lib/CodeGen/CGCall.cpp:1753-1959 | what the callee returns the caller receives unchanged, whenever the coerced return loses no bytes |
| Marshal.EmitCall | lib/CodeGen/CGCall.cpp:1800-1960 | a call passes every argument at its own positions, carries the attribute list, is an invoke exactly when there is an unwind destination and the callee may unwind, and yields the result of the call |
| VarArgs.RoundUp | lib/CodeGen/CGCall.cpp:981-986 | rounding up to 4, 8 or 16 gives the least multiple not below x |
| VarArgs.FitsInRegisters | lib/CodeGen/CGCall.cpp:1019-1043 | an argument fits exactly when its integer registers end within the 48-byte integer area and its SSE registers within the 176-byte save area |
| VarArgs.OverflowFetch | lib/CodeGen/CGCall.cpp:942-990 | the overflow area address is aligned to 16 only for types aligned beyond 8 bytes, and is then bumped by the least multiple of 8 bytes that covers the value |
| VarArgs.X86_64VaList.constructor | lib/CodeGen/CGCall.cpp:992-1006 | a va_list holds the given offsets and areas |
| VarArgs.X86_64VaList.FromMemory | lib/CodeGen/CGCall.cpp:942-990 | fetching from memory takes the value at the aligned overflow address, bumps the overflow area and leaves the register offsets alone |
| VarArgs.X86_64VaList.FromRegisters | lib/CodeGen/CGCall.cpp:1054-1141 | a register fetch reads the slots from the two offsets on and moves them by 8 per integer and 16 per SSE register; when the registers fit, a valid va_list stays valid |
| VarArgs.X86_64VaList.EmitVAArg | lib/CodeGen/CGCall.cpp:992-1158 | a value that fits the remaining registers is read from the save area and the offsets advance by 8 per integer and 16 per SSE register; otherwise it is read from memory; a valid va_list stays valid |
| VarArgs.SaveAreaSlotsAreFresh | lib/CodeGen/CGCall.cpp:1054-1140 | the slots read from the save area lie between the old and new offsets and within the area for their kind |
| VarArgs.PointerVaList.constructor | lib/CodeGen/CGCall.cpp:356-378 | a pointer va_list starts at the given address |
| VarArgs.PointerVaList.EmitVAArg | lib/CodeGen/CGCall.cpp:356-378 | the value is read at the current address, which then moves by the value's size rounded up to 4 bytes |
| VarArgs.PointerBumpCoversValue | lib/CodeGen/CGCall.cpp:1220-1243 | the bump covers the value by fewer than 4 extra bytes and keeps a 4-aligned pointer 4-aligned |
| VarArgs.EmitVAArgFor | lib/CodeGen/CGCall.cpp:1964-1966 | va_arg is unsupported exactly under the default convention; on x86-64 the fetch and the new offsets and overflow area are those of the x86-64 va_arg (`X64Fetch`: save area when the registers fit, overflow area otherwise) and a valid va_list stays valid; on 32-bit x86 and ARM the value is at the pointer, which moves by its size rounded up to 4 |

## Left out

- Argument promotions and type compatibility for unprototyped functions are not modelled.
- IR building is not modelled: instruction creation, value names, basic blocks, insert points and the calling-convention setting of the call. The model keeps only what reaches the emitted call and the entry code.
- Load and store alignment annotations (alignment 1 on coerced memory) are not modelled.
- `ABIArgInfo::dump` is left out: it is diagnostic output.
- The thin `getFunctionInfo` overloads for declarations, call argument lists and method types are left out. They only collect the types handed to the signature-based lookup.
- The front end's type queries are reduced to the forms the code tests:
  - `hasAggregateLLVMType` is taken as "record, array or complex" (`IsAggregate`);
  - promotability and signedness come from the builtin integer kind.
- The padded size of lowered types is left out: the target data layout is a parameter, `sizeOf`.
- `X86_64Classify.Classify`: the dispositions use the psABI's merge and bit-field rules, not the code's. The code's classification is `X86_64Classify.ClassifyAsWritten`, and the two differ only on a long double followed by a non-X87 member (union { long double x; float f; } gives (SSE, X87Up) as written, (Memory, X87Up) here) and on zero-width bit-fields (struct { float f; int : 0; } gives (Integer, NoClass) as written, (SSE, NoClass) here).
- `StructExpansion.Value`: the agreement between a value and its byte image is not modelled.
- `X86_64ABI.ClassifyReturnType`: does not rule out the case the assertion at lines 745-747 guards against. A low half of NoClass with a high half that is not NoClass can occur (see `EmptyLowEightbyte`). As the code does once the assertion is compiled out, the model then gives Ignore and drops the high half.
- `X86_64ABI.ClassifyArgumentType`:
  - the same holds as for `ClassifyReturnType`, for the assertion at lines 838-840;
  - a high half of SSEUp after a low half of Memory is not excluded.
- `VarArgs.X86_64VaList.EmitVAArg`:
  - addresses are unbounded naturals, so 64-bit pointer wrap-around is not modelled;
  - the 32-bit constant offsets that would truncate for types of 2 GiB or more are not modelled;
  - the temporaries the register path assembles a mixed integer/SSE value in are left out, and the fetch is reported as the lists of slots read.
- `Lowering.SretSlots`, `Lowering.GetFunctionType`: the hidden return pointer is a pointer to the lowered return type in the default address space. Its address space (`RetTy.getAddressSpace()`, line 1485) is not modelled, since address spaces are not part of the type model.
- `VarArgs.X86_64VaList.Valid`: is established by `va_start`, which is not part of this model.
- Complex and aggregate r-values are collapsed into `Value`: the scalar/complex/aggregate distinction of the r-value is not kept.
- The target description is a configuration record (`TargetInfo`: architecture prefix, triple and pointer width). The target registry is not modelled.

## Findings

| source | as written | input that shows it | evidently intended | confidence | as-written member | corrected member |
|---|---|---|---|---|---|---|
| lib/CodeGen/CGCall.cpp:484-497 | merge turns X87, X87Up or ComplexX87 into Memory only when it is the new field's class, not the accumulated one, so the result depends on member order | union { long double x; float f; } merges X87 then SSE into (SSE, X87Up) (`X86_64Classify.UnionOfLongDoubleAndFloat`); with the members swapped it merges into Memory | psABI rule 4(e): if one of the classes is X87, X87Up or ComplexX87, Memory is the result, in either order | high, not executed | X86_64Classify.MergeAsWrittenIsOrderDependent | X86_64Classify.MergeCommutes |
| lib/CodeGen/CGCall.cpp:671-686 | a bit-field is always Integer in the eightbyte it starts in, even with zero width, and the eightbyte it ends in is computed as (Offset + Size - 1) / 64 in unsigned 64-bit arithmetic, which wraps for a zero width at offset 0 | a zero-width bit-field at offset 0 makes both eightbytes Integer, one at offsets 1-63 makes the low eightbyte Integer (struct { float f; int : 0; } becomes (Integer, NoClass), `X86_64Classify.FloatThenZeroWidthBitField`), one at offsets 65-127 the high one, and one at offset 64 makes the assertion fire | a zero-width bit-field occupies no eightbyte and contributes NoClass | high, not executed | X86_64Classify.ZeroWidthBitFieldAsWritten | X86_64Classify.BitFieldClasses |
