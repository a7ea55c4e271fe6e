/**
 * From dispositions to the physical signature: which lowered parameters a
 * function has, in what order, and which source value owns each of them.
 */
module Lowering {
  import opened Types
  import opened RecordShape

  /** One argument of a signature with its disposition. */
  datatype Param = Param(ty: Type, info: ABIArgInfo)

  /** What lowering reads from a signature's record. */
  datatype FnView = FnView(returnType: Type, returnInfo: ABIArgInfo, params: seq<Param>)

  /** Every argument to be expanded is a struct that can be expanded. */
  predicate Lowerable(v: FnView)
  {
    forall i :: 0 <= i < |v.params| ==> (v.params[i].info.Expand? ==> Expandable(v.params[i].ty))
  }

  /** The source value a physical parameter carries: the hidden return pointer or (part of) argument i. */
  datatype Owner = SretSlot | ArgSlot(i: nat)

  datatype Slot = Slot(owner: Owner, ty: LType)

  /** The lowered function type: result, parameters, and whether it is variadic. */
  datatype FunctionType = FunctionType(result: LType, params: seq<LType>, isVariadic: bool)

  function ConvertAll(ts: seq<Type>): (r: seq<LType>)
    ensures |r| == |ts| && forall k :: 0 <= k < |ts| ==> r[k] == Converted(ts[k])
  {
    seq(|ts|, k requires 0 <= k < |ts| => Converted(ts[k]))
  }

  function SlotTypes(s: seq<Slot>): (r: seq<LType>)
    ensures |r| == |s| && forall k :: 0 <= k < |s| ==> r[k] == s[k].ty
  {
    seq(|s|, k requires 0 <= k < |s| => s[k].ty)
  }

  lemma SlotTypesAppend(a: seq<Slot>, b: seq<Slot>)
    ensures SlotTypes(a + b) == SlotTypes(a) + SlotTypes(b)
  {
  }

  lemma ConvertAllAppend(a: seq<Type>, b: seq<Type>)
    ensures ConvertAll(a + b) == ConvertAll(a) + ConvertAll(b)
  {
  }

  /** The hidden return-pointer parameter, present exactly when the return value is Indirect. */
  function SretSlots(v: FnView): (r: seq<Slot>)
    ensures |r| == (if v.returnInfo.Indirect? then 1 else 0)
  {
    if v.returnInfo.Indirect? then [Slot(SretSlot, PtrTo(Converted(v.returnType)))] else []
  }

  /**
   * The physical parameters of argument i: none when ignored, its coerced
   * type, a pointer to its in-memory form, its own lowering, or one
   * parameter per leaf member when expanded.
   */
  function ArgSlots(i: nat, p: Param): (r: seq<Slot>)
    requires p.info.Expand? ==> Expandable(p.ty)
    ensures |r| == match p.info
      case Ignore => 0
      case Expand => |Leaves(p.ty)|
      case _ => 1
    ensures forall k :: 0 <= k < |r| ==> r[k].owner == ArgSlot(i)
  {
    match p.info
    case Ignore => []
    case Coerce(ty) => [Slot(ArgSlot(i), ty)]
    case Indirect(_) => [Slot(ArgSlot(i), PtrTo(ConvertedForMem(p.ty)))]
    case Direct => [Slot(ArgSlot(i), Converted(p.ty))]
    case Expand =>
      var leaves := Leaves(p.ty);
      seq(|leaves|, k requires 0 <= k < |leaves| => Slot(ArgSlot(i), Converted(leaves[k])))
  }

  /** The physical parameters of the hidden return pointer and the first n arguments. */
  function ParamSlotsUpTo(v: FnView, n: nat): seq<Slot>
    requires Lowerable(v) && n <= |v.params|
  {
    if n == 0 then SretSlots(v)
    else ParamSlotsUpTo(v, n - 1) + ArgSlots(n - 1, v.params[n - 1])
  }

  function ParamSlots(v: FnView): seq<Slot>
    requires Lowerable(v)
  {
    ParamSlotsUpTo(v, |v.params|)
  }

  /** The position of argument i's first physical parameter. */
  function ArgSlotStart(v: FnView, i: nat): (r: nat)
    requires Lowerable(v) && i <= |v.params|
    ensures r <= |ParamSlots(v)|
  {
    ParamSlotsPrefix(v, i, |v.params|);
    |ParamSlotsUpTo(v, i)|
  }

  lemma {:induction false} ParamSlotsPrefix(v: FnView, m: nat, n: nat)
    requires Lowerable(v) && m <= n <= |v.params|
    ensures ParamSlotsUpTo(v, m) <= ParamSlotsUpTo(v, n)
    decreases n
  {
    if m < n {
      ParamSlotsPrefix(v, m, n - 1);
    }
  }

  /**
   * The physical parameter list is the hidden return pointer (if any)
   * followed by each argument's parameters in argument order: argument i
   * owns exactly the positions from ArgSlotStart(v, i) on, as many as its
   * disposition calls for, and the first position belongs to the hidden
   * pointer exactly when the return is Indirect.
   */
  lemma {:induction false} SlotsBelongToTheirArgument(v: FnView, i: nat)
    requires Lowerable(v) && i < |v.params|
    ensures ArgSlotStart(v, i + 1) == ArgSlotStart(v, i) + |ArgSlots(i, v.params[i])|
    ensures ArgSlotStart(v, i + 1) <= |ParamSlots(v)|
    ensures forall k :: 0 <= k < |ArgSlots(i, v.params[i])| ==>
      ParamSlots(v)[ArgSlotStart(v, i) + k] == ArgSlots(i, v.params[i])[k] &&
      ParamSlots(v)[ArgSlotStart(v, i) + k].owner == ArgSlot(i)
  {
    ParamSlotsPrefix(v, i + 1, |v.params|);
    var all, pre, mine := ParamSlots(v), ParamSlotsUpTo(v, i), ArgSlots(i, v.params[i]);
    assert ParamSlotsUpTo(v, i + 1) == pre + mine;
    assert ArgSlotStart(v, i) == |pre|;
    assert ArgSlotStart(v, i + 1) == |pre| + |mine|;
    forall k | 0 <= k < |mine|
      ensures all[|pre| + k] == mine[k]
    {
      PrefixAt(pre, mine, all, k);
    }
  }

  lemma PrefixAt(pre: seq<Slot>, mine: seq<Slot>, all: seq<Slot>, k: nat)
    requires pre + mine <= all && k < |mine|
    ensures all[|pre| + k] == mine[k]
  {
    assert all[|pre| + k] == (pre + mine)[|pre| + k];
  }

  lemma {:induction false} SretSlotIsFirst(v: FnView)
    requires Lowerable(v)
    ensures v.returnInfo.Indirect? <==> |ParamSlots(v)| > 0 && ParamSlots(v)[0].owner == SretSlot
    ensures v.returnInfo.Indirect? ==> ParamSlots(v)[0].ty == PtrTo(Converted(v.returnType))
    ensures ArgSlotStart(v, 0) == if v.returnInfo.Indirect? then 1 else 0
  {
    ParamSlotsPrefix(v, 0, |v.params|);
    assert ParamSlotsUpTo(v, 0) == SretSlots(v);
    if !v.returnInfo.Indirect? && |ParamSlots(v)| > 0 {
      OwnersAreArguments(v, |v.params|, 0);
    }
  }

  /** Without an Indirect return every physical parameter belongs to an argument. */
  lemma {:induction false} OwnersAreArguments(v: FnView, n: nat, k: nat)
    requires Lowerable(v) && n <= |v.params| && !v.returnInfo.Indirect? && k < |ParamSlotsUpTo(v, n)|
    ensures ParamSlotsUpTo(v, n)[k].owner.ArgSlot?
    decreases n
  {
    if n > 0 && k < |ParamSlotsUpTo(v, n - 1)| {
      OwnersAreArguments(v, n - 1, k);
    }
  }

  /** The lowered result: void for an Indirect or ignored return, the coerced type, or the value's own lowering. */
  function ResultType(v: FnView): (r: LType)
    ensures v.returnInfo.Indirect? || v.returnInfo.Ignore? ==> r == VoidTy
    ensures v.returnInfo.Coerce? ==> r == v.returnInfo.ty
    ensures v.returnInfo.Direct? || v.returnInfo.Expand? ==> r == Converted(v.returnType)
  {
    match v.returnInfo
    case Indirect(_) => VoidTy
    case Ignore => VoidTy
    case Coerce(ty) => ty
    case _ => Converted(v.returnType)
  }

  /** GetExpandedTypes: append the lowering of every leaf member of t, in declaration order. */
  method GetExpandedTypes(t: Type, argTys: seq<LType>) returns (r: seq<LType>)
    requires Expandable(t)
    ensures r == argTys + ConvertAll(Leaves(t))
    decreases t
  {
    r := argTys;
    var i := 0;
    while i < |t.fields|
      invariant 0 <= i <= |t.fields|
      invariant ExpandableFrom(t, i)
      invariant r + ConvertAll(LeavesFrom(t, i)) == argTys + ConvertAll(Leaves(t))
    {
      var ft := t.fields[i].ty;
      var head := if IsAggregate(ft) then Leaves(ft) else [ft];
      assert LeavesFrom(t, i) == head + LeavesFrom(t, i + 1);
      ConvertAllAppend(head, LeavesFrom(t, i + 1));
      if IsAggregate(ft) {
        r := GetExpandedTypes(ft, r);
      } else {
        r := r + [Converted(ft)];
      }
      i := i + 1;
    }
  }

  /**
   * GetFunctionType: the lowered function type of a signature. Its
   * parameters are exactly the types of ParamSlots, in order.
   */
  method GetFunctionType(v: FnView, isVariadic: bool) returns (ft: FunctionType)
    requires Lowerable(v)
    ensures ft.result == ResultType(v)
    ensures ft.params == SlotTypes(ParamSlots(v))
    ensures ft.isVariadic == isVariadic
  {
    var argTys: seq<LType> := [];
    var result: LType;
    match v.returnInfo {
      case Expand =>
        result := Converted(v.returnType);
      case Direct =>
        result := Converted(v.returnType);
      case Indirect(_) =>
        result := VoidTy;
        argTys := argTys + [PtrTo(Converted(v.returnType))];
      case Ignore =>
        result := VoidTy;
      case Coerce(ty) =>
        result := ty;
    }
    assert argTys == SlotTypes(SretSlots(v));
    var k := 0;
    while k < |v.params|
      invariant 0 <= k <= |v.params|
      invariant argTys == SlotTypes(ParamSlotsUpTo(v, k))
    {
      var p := v.params[k];
      SlotTypesAppend(ParamSlotsUpTo(v, k), ArgSlots(k, p));
      match p.info {
        case Ignore =>
        case Coerce(ty) =>
          assert SlotTypes(ArgSlots(k, p)) == [ty];
          argTys := argTys + [ty];
        case Indirect(_) =>
          assert SlotTypes(ArgSlots(k, p)) == [PtrTo(ConvertedForMem(p.ty))];
          argTys := argTys + [PtrTo(ConvertedForMem(p.ty))];
        case Direct =>
          assert SlotTypes(ArgSlots(k, p)) == [Converted(p.ty)];
          argTys := argTys + [Converted(p.ty)];
        case Expand =>
          argTys := GetExpandedTypes(p.ty, argTys);
      }
      k := k + 1;
    }
    ft := FunctionType(result, argTys, isVariadic);
  }
}
