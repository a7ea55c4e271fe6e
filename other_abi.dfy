/**
 * The 32-bit x86 conventions (with the Darwin variant), the ARM convention,
 * and the target-independent default convention.
 */
module X86_32ABI {
  import opened Types
  import opened RecordShape

  /** Lowered types a 32-bit x86 return value may be coerced to: one register-sized scalar. */
  predicate IsRegisterScalar(l: LType)
  {
    l == FloatTy || l == DoubleTy || l == PtrTo(IntTy(8)) || l.IntTy?
  }

  /** The register image of the single element of a struct, when that element is a scalar the rules name. */
  function ElementImage(e: Type): (r: Option<LType>)
    ensures r.Some? ==> IsRegisterScalar(r.value)
    ensures r.Some? <==> IsBuiltinInteger(e) || IsBuiltinKind(e, Float) || IsBuiltinKind(e, Double) || e.Pointer?
  {
    if IsBuiltinInteger(e) then Some(IntTy(Size(e)))
    else if IsBuiltinKind(e, Float) then Some(FloatTy)
    else if IsBuiltinKind(e, Double) then Some(DoubleTy)
    else if e.Pointer? then Some(PtrTo(IntTy(8)))
    else None
  }

  /**
   * classifyReturnType: void is ignored, scalars are Direct. Outside Darwin
   * every struct, union and array is returned through a hidden pointer. On
   * Darwin (and for complex values everywhere) a single-element struct comes
   * back as its element, and otherwise a value of 1, 2, 4 or 8 bytes comes
   * back in an integer of that size.
   */
  function ClassifyReturnType(t: Type, isDarwin: bool): (r: ABIArgInfo)
    ensures r == Ignore <==> IsVoid(t)
    ensures r == Direct <==> !IsVoid(t) && !IsAggregate(t)
    ensures !isDarwin && IsAggregate(t) && !t.Complex? ==> r == Indirect(0)
    ensures r.Indirect? ==> r.align == 0
    ensures !r.Expand?
    ensures r.Coerce? ==> IsRegisterScalar(r.ty)
    ensures r.Coerce? && !(SingleElement(t).Some? && ElementImage(SingleElement(t).value).Some?) ==>
      r.ty == IntTy(Size(t)) && Size(t) in {8, 16, 32, 64}
    ensures IsAggregate(t) && (isDarwin || t.Complex?) && SingleElement(t).Some? && ElementImage(SingleElement(t).value).Some? ==>
      r == Coerce(ElementImage(SingleElement(t).value).value)
    ensures (IsAggregate(t) && (isDarwin || t.Complex?) &&
             !(SingleElement(t).Some? && ElementImage(SingleElement(t).value).Some?)) ==>
      r == (if Size(t) in {8, 16, 32, 64} then Coerce(IntTy(Size(t))) else Indirect(0))
  {
    if IsVoid(t) then Ignore
    else if IsAggregate(t) then
      if !isDarwin && !t.Complex? then Indirect(0)
      else
        var se := SingleElement(t);
        var image := if se.Some? then ElementImage(se.value) else None;
        if image.Some? then Coerce(image.value)
        else if Size(t) in {8, 16, 32, 64} then Coerce(IntTy(Size(t)))
        else Indirect(0)
    else Direct
  }

  /**
   * classifyArgumentType: scalars are Direct. Structs with a flexible array
   * go by pointer, empty structs are dropped, structs of at most 16 bytes
   * made only of 32/64-bit builtins and pointers are split into their
   * members, everything else goes by pointer.
   */
  function ClassifyArgumentType(t: Type): (r: ABIArgInfo)
    ensures r == Direct <==> !IsAggregate(t)
    ensures r == Ignore <==> IsStruct(t) && !t.hasFlexibleArray && Size(t) == 0
    ensures r == Expand <==> IsStruct(t) && !t.hasFlexibleArray && 0 < Size(t) <= 128 && AllFields32Or64BitBasic(t)
    ensures r.Indirect? ==> r.align == 0
    ensures !r.Coerce?
  {
    if IsAggregate(t) then
      if IsStruct(t) && t.hasFlexibleArray then Indirect(0)
      else if IsStruct(t) && Size(t) == 0 then Ignore
      else if IsStruct(t) && Size(t) <= 128 && AllFields32Or64BitBasic(t) then Expand
      else Indirect(0)
    else Direct
  }

  /** An expanded argument becomes exactly one parameter per member, each a 32- or 64-bit scalar. */
  lemma ExpandedArgumentIsFlat(t: Type)
    requires ClassifyArgumentType(t) == Expand
    ensures Expandable(t)
    ensures |Leaves(t)| == |t.fields|
    ensures forall j :: 0 <= j < |Leaves(t)| ==> Is32Or64BitBasic(Leaves(t)[j])
  {
    BasicStructExpandsToFields(t);
  }

  /**
   * On Darwin, struct { float f; } is returned as a float, struct { short a;
   * short b; } as a 32-bit integer, and a 6-byte struct by pointer; on every
   * x86-32 target _Complex float is returned as a 64-bit integer.
   */
  lemma DarwinSmallStructReturns()
    ensures var f := Builtin(Float, 32, 32);
      ClassifyReturnType(Record(false, [Field(f, 0, false, 0)], 32, 32, false), true) == Coerce(FloatTy)
    ensures var s := Builtin(IntKind(true, Short), 16, 16);
      var t := Record(false, [Field(s, 0, false, 0), Field(s, 16, false, 0)], 32, 16, false);
      ClassifyReturnType(t, true) == Coerce(IntTy(32)) && ClassifyReturnType(t, false) == Indirect(0)
    ensures var s := Builtin(IntKind(true, Short), 16, 16);
      var t := Record(false, [Field(s, 0, false, 0), Field(s, 16, false, 0), Field(s, 32, false, 0)], 48, 16, false);
      ClassifyReturnType(t, true) == Indirect(0) && ClassifyReturnType(t, false) == Indirect(0)
    ensures var c := Complex(Builtin(Float, 32, 32));
      ClassifyReturnType(c, true) == Coerce(IntTy(64)) && ClassifyReturnType(c, false) == Coerce(IntTy(64))
  {
    var f := Builtin(Float, 32, 32);
    var t := Record(false, [Field(f, 0, false, 0)], 32, 32, false);
    assert !IsEmptyStruct(f);
    assert SingleElementFrom(t, 1, Some(f)) == Some(f);
    var s := Builtin(IntKind(true, Short), 16, 16);
    assert !IsEmptyStruct(s);
    var p := Record(false, [Field(s, 0, false, 0), Field(s, 16, false, 0)], 32, 16, false);
    assert SingleElementFrom(p, 1, Some(s)) == None;
    var u := Record(false, [Field(s, 0, false, 0), Field(s, 16, false, 0), Field(s, 32, false, 0)], 48, 16, false);
    assert SingleElementFrom(u, 1, Some(s)) == None;
  }
}

module ARMABI {
  import opened Types

  /**
   * classifyArgumentType: scalars are Direct; every aggregate is coerced to a
   * packed struct holding one array of words, 64-bit words when the value is
   * more than 4-byte aligned and 32-bit words otherwise, just enough words to
   * hold the value.
   */
  function ClassifyArgumentType(t: Type): (r: ABIArgInfo)
    ensures r == Direct <==> !IsAggregate(t)
    ensures r != Direct ==> r.Coerce? && r.ty.PackedStructTy? && |r.ty.elems| == 1 && r.ty.elems[0].ArrayTy?
    ensures r.Coerce? ==>
      var words := r.ty.elems[0];
      var w := if Align(t) > 32 then 64 else 32;
      words.elem == IntTy(w) && words.n * w >= Size(t) && (words.n == 0 || (words.n - 1) * w < Size(t))
  {
    if !IsAggregate(t) then Direct
    else if Align(t) > 32 then Coerce(PackedStructTy([ArrayTy(IntTy(64), (Size(t) + 63) / 64)]))
    else Coerce(PackedStructTy([ArrayTy(IntTy(32), (Size(t) + 31) / 32)]))
  }

  /** classifyReturnType: aggregates of at most 4 bytes come back in r0, larger ones through a hidden pointer. */
  function ClassifyReturnType(t: Type): (r: ABIArgInfo)
    ensures r == Ignore <==> IsVoid(t)
    ensures r == Direct <==> !IsVoid(t) && !IsAggregate(t)
    ensures r == Coerce(IntTy(32)) <==> IsAggregate(t) && Size(t) <= 32
    ensures r == Indirect(0) <==> IsAggregate(t) && Size(t) > 32
  {
    if IsVoid(t) then Ignore
    else if IsAggregate(t) then
      if Size(t) <= 32 then Coerce(IntTy(32)) else Indirect(0)
    else Direct
  }
}

module DefaultABI {
  import opened Types

  /** The default convention: void is ignored, aggregates go by pointer, scalars are Direct. */
  function ClassifyReturnType(t: Type): (r: ABIArgInfo)
    ensures r == Ignore <==> IsVoid(t)
    ensures r == Indirect(0) <==> IsAggregate(t)
    ensures r == Direct <==> !IsVoid(t) && !IsAggregate(t)
  {
    if IsVoid(t) then Ignore
    else if IsAggregate(t) then Indirect(0)
    else Direct
  }

  function ClassifyArgumentType(t: Type): (r: ABIArgInfo)
    ensures r == Indirect(0) <==> IsAggregate(t)
    ensures r == Direct <==> !IsAggregate(t)
  {
    if IsAggregate(t) then Indirect(0) else Direct
  }
}
