/**
 * x86-64 dispositions: how a classified return value or argument is lowered
 * (section 3.2.3 of the System V AMD64 psABI, "Parameter Passing" and
 * "Returning of Values"), and the left-to-right assignment of the six
 * general-purpose and eight SSE argument registers.
 */
module X86_64ABI {
  import opened Types
  import opened X86_64Classify

  /**
   * getCoerceResult: a value whose coerced register image is its own natural
   * lowering (an integer or pointer in an i64, a float or double in a double)
   * is passed Direct; anything else is coerced.
   */
  function GetCoerceResult(t: Type, coerceTo: LType): (r: ABIArgInfo)
    ensures r == Direct <==>
      (coerceTo == IntTy(64) && (IsIntegral(t) || t.Pointer?)) ||
      (coerceTo == DoubleTy && (IsBuiltinKind(t, Float) || IsBuiltinKind(t, Double)))
    ensures r != Direct ==> r == Coerce(coerceTo)
  {
    if coerceTo == IntTy(64) && (IsIntegral(t) || t.Pointer?) then Direct
    else if coerceTo == DoubleTy && (IsBuiltinKind(t, Float) || IsBuiltinKind(t, Double)) then Direct
    else Coerce(coerceTo)
  }

  /** The register image of the low eightbyte of a returned value. */
  function ReturnLoType(lo: Class): LType
  {
    match lo
    case SSE => DoubleTy
    case X87 => X86FP80Ty
    case ComplexX87 => StructTy([X86FP80Ty, X86FP80Ty])
    case _ => IntTy(64)
  }

  /** The register image of a returned value whose low eightbyte is held in registers. */
  function ReturnImage(c: Classes): LType
  {
    var lo := ReturnLoType(c.lo);
    match c.hi
    case Integer => StructTy([lo, IntTy(64)])
    case SSE => StructTy([lo, DoubleTy])
    case SSEUp => VecTy(DoubleTy, 2)
    case X87Up => if c.lo != X87 then StructTy([lo, DoubleTy]) else lo
    case _ => lo
  }

  /**
   * classifyReturnType. Nothing is returned for an empty value; a value of
   * class Memory is returned through a hidden pointer; otherwise the value
   * comes back in registers, Direct when it is a scalar in its natural register.
   */
  function ClassifyReturnType(t: Type): (r: ABIArgInfo)
    requires WellFormed(t)
    ensures r == Ignore <==> Classify(t, 0).lo == NoClass
    ensures r.Indirect? <==> Classify(t, 0).lo == Memory
    ensures r.Indirect? ==> r.align == 0
    ensures !r.Expand?
    ensures r == Direct ==> !IsAggregate(t)
    ensures r == Direct <==> IsIntegral(t) || t.Pointer? || IsBuiltinKind(t, Float) || IsBuiltinKind(t, Double)
    ensures r.Coerce? ==> r.ty == ReturnImage(Classify(t, 0))
  {
    var c := Classify(t, 0);
    assert t.Enum? ==> c == Classify(t.underlying, 0);
    if c.lo == NoClass then Ignore
    else if c.lo == Memory then Indirect(0)
    else GetCoerceResult(t, ReturnImage(c))
  }

  /** A classified argument and the registers of each kind it needs. */
  datatype ArgClassification = ArgClassification(info: ABIArgInfo, neededInt: nat, neededSSE: nat)

  /** General-purpose registers an eightbyte of class c takes. */
  function IntRegs(c: Class): nat { if c == Integer then 1 else 0 }

  /**
   * SSE registers an eightbyte of class c takes; an X87Up high half (only
   * possible inside a union) also travels in an SSE register.
   */
  function SSERegs(c: Class): nat { if c == SSE || c == X87Up then 1 else 0 }

  /** The register image of an argument passed in registers. */
  function ArgImage(c: Classes): LType
  {
    var lo := if c.lo == SSE then DoubleTy else IntTy(64);
    match c.hi
    case Integer => StructTy([lo, IntTy(64)])
    case SSE => StructTy([lo, DoubleTy])
    case X87Up => StructTy([lo, DoubleTy])
    case SSEUp => VecTy(DoubleTy, 2)
    case _ => lo
  }

  /**
   * classifyArgumentType. An empty argument is dropped; Memory, X87 and
   * ComplexX87 arguments go on the stack; otherwise each eightbyte takes one
   * register of its kind, one or two in all.
   */
  function ClassifyArgumentType(t: Type): (r: ArgClassification)
    requires WellFormed(t)
    ensures r.info == Ignore <==> Classify(t, 0).lo == NoClass
    ensures r.info.Indirect? <==> Classify(t, 0).lo in {Memory, X87, ComplexX87}
    ensures r.info.Indirect? ==> r.info.align == 0
    ensures !r.info.Expand?
    ensures r.info == Direct ==> !IsAggregate(t)
    ensures r.info == Direct <==> IsIntegral(t) || t.Pointer? || IsBuiltinKind(t, Float) || IsBuiltinKind(t, Double)
    ensures r.info == Ignore || r.info.Indirect? ==> r.neededInt == 0 && r.neededSSE == 0
    ensures r.info.Direct? || r.info.Coerce? ==>
      r.neededInt == IntRegs(Classify(t, 0).lo) + IntRegs(Classify(t, 0).hi) &&
      r.neededSSE == SSERegs(Classify(t, 0).lo) + SSERegs(Classify(t, 0).hi) &&
      1 <= r.neededInt + r.neededSSE <= 2
    ensures r.info.Coerce? ==> r.info.ty == ArgImage(Classify(t, 0))
  {
    var c := Classify(t, 0);
    assert t.Enum? ==> c == Classify(t.underlying, 0);
    if c.lo == NoClass then ArgClassification(Ignore, 0, 0)
    else if c.lo in {Memory, X87, ComplexX87} then ArgClassification(Indirect(0), 0, 0)
    else
      var loInt: nat := if c.lo == SSE then 0 else 1;
      var loSSE: nat := if c.lo == SSE then 1 else 0;
      var hiInt: nat := if c.hi == Integer then 1 else 0;
      var hiSSE: nat := if c.hi == SSE || c.hi == X87Up then 1 else 0;
      ArgClassification(GetCoerceResult(t, ArgImage(c)), loInt + hiInt, loSSE + hiSSE)
  }

  /**
   * Wherever the low eightbyte is not an x87 class, a value travels the same
   * way as an argument as it does as a return value.
   */
  lemma ArgumentMatchesReturn(t: Type)
    requires WellFormed(t) && Classify(t, 0).lo !in {X87, ComplexX87}
    ensures ClassifyArgumentType(t).info == ClassifyReturnType(t)
  {
  }

  /** Scalars: integers, enumerations and pointers in one general register, float and double in one SSE register. */
  lemma ScalarDispositions(t: Type)
    requires WellFormed(t) && (IsIntegral(t) || t.Pointer? || IsBuiltinKind(t, Float) || IsBuiltinKind(t, Double))
    ensures ClassifyReturnType(t) == Direct
    ensures ClassifyArgumentType(t) ==
      ArgClassification(Direct, if IsBuiltinKind(t, Float) || IsBuiltinKind(t, Double) then 0 else 1,
                                if IsBuiltinKind(t, Float) || IsBuiltinKind(t, Double) then 1 else 0)
  {
    if t.Enum? {
      assert Classify(t, 0) == Classify(t.underlying, 0);
    }
  }

  /**
   * Vectors: a 128-bit vector is (SSE, SSEUp) and travels as <2 x double> in
   * one SSE register; <1 x double> goes to memory.
   */
  lemma VectorDispositions(t: Type)
    requires WellFormed(t) && t.Vector?
    ensures t.bits == 128 ==>
      Classify(t, 0) == Classes(SSE, SSEUp) &&
      ClassifyReturnType(t) == Coerce(VecTy(DoubleTy, 2)) &&
      ClassifyArgumentType(t) == ArgClassification(Coerce(VecTy(DoubleTy, 2)), 0, 1)
    ensures t.bits == 64 && IsBuiltinKind(t.elem, Double) ==>
      Classify(t, 0) == Classes(Memory, NoClass) &&
      ClassifyReturnType(t) == Indirect(0) &&
      ClassifyArgumentType(t) == ArgClassification(Indirect(0), 0, 0)
  {
  }

  /** long double is returned on the x87 stack and passed in memory; void is ignored. */
  lemma LongDoubleAndVoid(t: Type)
    requires WellFormed(t) && (IsBuiltinKind(t, LongDouble) || IsVoid(t))
    ensures IsVoid(t) ==> ClassifyReturnType(t) == Ignore && ClassifyArgumentType(t).info == Ignore
    ensures IsBuiltinKind(t, LongDouble) ==>
      ClassifyReturnType(t) == Coerce(X86FP80Ty) && ClassifyArgumentType(t) == ArgClassification(Indirect(0), 0, 0)
  {
  }

  /** Rule 1: records and arrays of more than 16 bytes, and structs with a flexible array, are passed in memory. */
  lemma LargeAggregatesInMemory(t: Type)
    requires WellFormed(t) && (t.Record? || t.ConstArray?) && (Size(t) > 128 || (t.Record? && t.hasFlexibleArray))
    ensures ClassifyReturnType(t) == Indirect(0)
    ensures ClassifyArgumentType(t) == ArgClassification(Indirect(0), 0, 0)
  {
  }

  /** A record with a misaligned member that is not a bit-field is returned and passed in memory. */
  lemma MisalignedMemberPassedInMemory(t: Type, j: nat)
    requires WellFormed(t) && t.Record? && j < |t.fields|
    requires !t.fields[j].isBitField && Align(t.fields[j].ty) > 0 && t.fields[j].offset % Align(t.fields[j].ty) != 0
    ensures ClassifyReturnType(t) == Indirect(0)
    ensures ClassifyArgumentType(t) == ArgClassification(Indirect(0), 0, 0)
  {
    MisalignedMemberMakesMemory(Corrected, t, j);
  }

  /** A complex long double comes back as two x87 values and is passed in memory. */
  lemma ComplexLongDouble(t: Type)
    requires WellFormed(t) && t.Complex? && IsBuiltinKind(t.elem, LongDouble)
    ensures ClassifyReturnType(t) == Coerce(StructTy([X86FP80Ty, X86FP80Ty]))
    ensures ClassifyArgumentType(t) == ArgClassification(Indirect(0), 0, 0)
  {
    assert WellFormed(t.elem) && Size(t) == 2 * Size(t.elem);
  }

  /** struct { float a; float b; }: both floats share the low eightbyte, one SSE register holding a double image. */
  lemma TwoFloatStruct()
    ensures var f := Builtin(Float, 32, 32);
      var t := Record(false, [Field(f, 0, false, 0), Field(f, 32, false, 0)], 64, 32, false);
      WellFormed(t) &&
      Classify(t, 0) == Classes(SSE, NoClass) &&
      ClassifyArgumentType(t) == ArgClassification(Coerce(DoubleTy), 0, 1) &&
      ClassifyReturnType(t) == Coerce(DoubleTy)
  {
    var f := Builtin(Float, 32, 32);
    var t := Record(false, [Field(f, 0, false, 0), Field(f, 32, false, 0)], 64, 32, false);
    var c := Classes(SSE, NoClass);
    assert Classify(f, 0) == c && Classify(f, 32) == c;
    assert FoldFields(Corrected, t, 0, 2, c) == Scan(c, false);
    assert FoldFields(Corrected, t, 0, 1, c) == Scan(c, false);
    assert FoldFields(Corrected, t, 0, 0, Classes(NoClass, NoClass)) == Scan(c, false);
  }

  /** struct { long a; double b; }: one general and one SSE register. */
  lemma LongAndDoubleStruct()
    ensures var l := Builtin(IntKind(true, Long), 64, 64);
      var d := Builtin(Double, 64, 64);
      var t := Record(false, [Field(l, 0, false, 0), Field(d, 64, false, 0)], 128, 64, false);
      WellFormed(t) &&
      Classify(t, 0) == Classes(Integer, SSE) &&
      ClassifyArgumentType(t) == ArgClassification(Coerce(StructTy([IntTy(64), DoubleTy])), 1, 1)
  {
    var l := Builtin(IntKind(true, Long), 64, 64);
    var d := Builtin(Double, 64, 64);
    var t := Record(false, [Field(l, 0, false, 0), Field(d, 64, false, 0)], 128, 64, false);
    var c := Classes(Integer, SSE);
    assert Classify(l, 0) == Classes(Integer, NoClass) && Classify(d, 64) == Classes(NoClass, SSE);
    assert FoldFields(Corrected, t, 0, 2, c) == Scan(c, false);
    assert FoldFields(Corrected, t, 0, 1, Classes(Integer, NoClass)) == Scan(c, false);
    assert FoldFields(Corrected, t, 0, 0, Classes(NoClass, NoClass)) == Scan(c, false);
  }

  /** A 20-byte struct of five ints is passed and returned in memory. */
  lemma TwentyByteStruct()
    ensures var i := Builtin(IntKind(true, Int), 32, 32);
      var t := Record(false, [Field(i, 0, false, 0), Field(i, 32, false, 0), Field(i, 64, false, 0),
                              Field(i, 96, false, 0), Field(i, 128, false, 0)], 160, 32, false);
      WellFormed(t) &&
      Classify(t, 0) == Classes(Memory, NoClass) &&
      ClassifyArgumentType(t) == ArgClassification(Indirect(0), 0, 0) &&
      ClassifyReturnType(t) == Indirect(0)
  {
  }

  /**
   * struct { Empty e; double d; } with a one-byte empty member (as C++ lays
   * it out): the low eightbyte holds nothing and the high one a double. The
   * "Invalid null classification" assertion does not hold here, and without
   * it the argument is ignored, so the double is never passed.
   */
  lemma EmptyLowEightbyte()
    ensures var e := Record(false, [], 8, 8, false);
      var d := Builtin(Double, 64, 64);
      var t := Record(false, [Field(e, 0, false, 0), Field(d, 64, false, 0)], 128, 64, false);
      WellFormed(t) &&
      Classify(t, 0) == Classes(NoClass, SSE) &&
      ClassifyArgumentType(t).info == Ignore
  {
    var e := Record(false, [], 8, 8, false);
    var d := Builtin(Double, 64, 64);
    var t := Record(false, [Field(e, 0, false, 0), Field(d, 64, false, 0)], 128, 64, false);
    var c := Classes(NoClass, SSE);
    assert Classify(e, 0) == Classes(NoClass, NoClass) && Classify(d, 64) == c;
    assert FoldFields(Corrected, t, 0, 2, c) == Scan(c, false);
    assert FoldFields(Corrected, t, 0, 1, Classes(NoClass, NoClass)) == Scan(c, false);
    assert FoldFields(Corrected, t, 0, 0, Classes(NoClass, NoClass)) == Scan(c, false);
  }

  /** The number of free registers of each kind while arguments are assigned. */
  datatype Budget = Budget(freeInt: nat, freeSSE: nat)

  const InitialBudget := Budget(6, 8)

  predicate Fits(b: Budget, a: ArgClassification)
  {
    b.freeInt >= a.neededInt && b.freeSSE >= a.neededSSE
  }

  /** The registers left after assigning every argument of args, left to right. */
  function BudgetAfter(args: seq<Type>): (b: Budget)
    requires AllWellFormed(args)
    ensures b.freeInt <= 6 && b.freeSSE <= 8
    decreases |args|
  {
    if |args| == 0 then InitialBudget
    else
      var b := BudgetAfter(args[..|args| - 1]);
      var a := ClassifyArgumentType(args[|args| - 1]);
      if Fits(b, a) then Budget(b.freeInt - a.neededInt, b.freeSSE - a.neededSSE) else b
  }

  /**
   * The disposition of argument i: its own classification when the registers
   * it needs are still free after the arguments before it, else memory.
   */
  function Assigned(args: seq<Type>, i: nat): (r: ABIArgInfo)
    requires AllWellFormed(args) && i < |args|
    ensures r == ClassifyArgumentType(args[i]).info || r == Indirect(0)
  {
    var a := ClassifyArgumentType(args[i]);
    if Fits(BudgetAfter(args[..i]), a) then a.info else Indirect(0)
  }

  /** Registers of each kind taken by the arguments that were given registers. */
  function IntUsed(args: seq<Type>): nat
    requires AllWellFormed(args)
    decreases |args|
  {
    if |args| == 0 then 0
    else
      var a := ClassifyArgumentType(args[|args| - 1]);
      IntUsed(args[..|args| - 1]) + (if Fits(BudgetAfter(args[..|args| - 1]), a) then a.neededInt else 0)
  }

  function SSEUsed(args: seq<Type>): nat
    requires AllWellFormed(args)
    decreases |args|
  {
    if |args| == 0 then 0
    else
      var a := ClassifyArgumentType(args[|args| - 1]);
      SSEUsed(args[..|args| - 1]) + (if Fits(BudgetAfter(args[..|args| - 1]), a) then a.neededSSE else 0)
  }

  /** Never more than six general-purpose and eight SSE registers are handed out. */
  lemma {:induction false} RegistersNeverOverCommitted(args: seq<Type>)
    requires AllWellFormed(args)
    ensures IntUsed(args) + BudgetAfter(args).freeInt == 6
    ensures SSEUsed(args) + BudgetAfter(args).freeSSE == 8
    ensures IntUsed(args) <= 6 && SSEUsed(args) <= 8
    decreases |args|
  {
    if |args| > 0 {
      RegistersNeverOverCommitted(args[..|args| - 1]);
    }
  }

  /**
   * No revert: the disposition given to an argument is not changed by the
   * arguments after it.
   */
  lemma {:induction false} AssignmentIsStable(args: seq<Type>, more: seq<Type>, i: nat)
    requires AllWellFormed(args) && AllWellFormed(more) && i < |args|
    ensures AllWellFormed(args + more)
    ensures Assigned(args + more, i) == Assigned(args, i)
  {
    assert (args + more)[..i] == args[..i];
    assert (args + more)[i] == args[i];
  }

  /**
   * An argument that does not fit takes no registers, so a later smaller
   * argument can still be given the registers that are left.
   */
  lemma {:induction false} RejectedArgumentTakesNothing(args: seq<Type>, i: nat)
    requires AllWellFormed(args) && i < |args|
    requires !Fits(BudgetAfter(args[..i]), ClassifyArgumentType(args[i]))
    ensures Assigned(args, i) == Indirect(0)
    ensures BudgetAfter(args[..i + 1]) == BudgetAfter(args[..i])
  {
    assert args[..i + 1][..i] == args[..i];
  }

  /**
   * A run of integer-class scalar arguments: the first six are given
   * general-purpose registers, every later one goes to memory.
   */
  lemma {:induction false} IntegerArgumentsBudget(args: seq<Type>)
    requires forall i :: 0 <= i < |args| ==> WellFormed(args[i]) && (IsIntegral(args[i]) || args[i].Pointer?)
    ensures AllWellFormed(args)
    ensures BudgetAfter(args) == Budget(if |args| <= 6 then 6 - |args| else 0, 8)
    decreases |args|
  {
    if |args| > 0 {
      var prefix := args[..|args| - 1];
      IntegerArgumentsBudget(prefix);
      ScalarDispositions(args[|args| - 1]);
    }
  }

  lemma SeventhIntegerGoesToMemory(args: seq<Type>, i: nat)
    requires forall j :: 0 <= j < |args| ==> WellFormed(args[j]) && (IsIntegral(args[j]) || args[j].Pointer?)
    requires i < |args|
    ensures AllWellFormed(args)
    ensures Assigned(args, i) == if i < 6 then Direct else Indirect(0)
  {
    IntegerArgumentsBudget(args[..i]);
    ScalarDispositions(args[i]);
  }
}
