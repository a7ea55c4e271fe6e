/**
 * The per-signature record of dispositions and the registry that hands out
 * one such record per (return type, argument types) signature, computing the
 * dispositions once, when the record is created.
 */
module Registry {
  import opened Types
  import opened TargetABI
  import X64 = X86_64ABI
  import X86_32ABI
  import ARMABI
  import DefaultABI
  import opened Lowering
  import opened RecordShape

  /** The lookup key: a return type and the argument types, in order. */
  datatype Signature = Signature(ret: Type, args: seq<Type>)

  /** CGFunctionInfo: a signature and the disposition of its return value and of each argument. */
  class FunctionInfo {
    const returnType: Type
    const argTypes: seq<Type>
    var returnInfo: ABIArgInfo
    var argInfos: seq<ABIArgInfo>

    /** A fresh record: one disposition slot per argument, all holding the default kind. */
    constructor(ret: Type, args: seq<Type>)
      ensures returnType == ret && argTypes == args
      ensures returnInfo == Direct && argInfos == seq(|args|, _ => Direct)
    {
      returnType := ret;
      argTypes := args;
      returnInfo := Direct;
      argInfos := seq(|args|, _ => Direct);
    }

    /** The record holds exactly the dispositions the convention gives its signature. */
    predicate Computed(abi: ABI)
      reads this
    {
      WellFormed(returnType) && AllWellFormed(argTypes) &&
      returnInfo == ReturnInfo(abi, returnType) && argInfos == ArgInfos(abi, argTypes)
    }

    /** The record as the lowering reads it: each argument type paired with its disposition. */
    function View(): FnView
      reads this
      requires |argInfos| == |argTypes|
    {
      var infos := argInfos;
      FnView(returnType, returnInfo, seq(|argTypes|, i requires 0 <= i < |argTypes| => Param(argTypes[i], infos[i])))
    }
  }

  /**
   * A computed record can be lowered: every argument it expands is a struct
   * that can be expanded, and its return value is never expanded.
   */
  lemma ComputedRecordsLower(fi: FunctionInfo, abi: ABI)
    requires fi.Computed(abi)
    ensures |fi.argInfos| == |fi.argTypes|
    ensures Lowerable(fi.View()) && !fi.View().returnInfo.Expand?
  {
    forall i | 0 <= i < |fi.argTypes|
      ensures fi.View().params[i].info.Expand? ==> Expandable(fi.View().params[i].ty)
    {
      assert fi.View().params[i] == Param(fi.argTypes[i], fi.argInfos[i]);
      assert fi.argInfos[i] == ArgInfo(abi, fi.argTypes, i);
    }
  }

  /**
   * One turn of computeInfo's argument loop: the disposition of argument k
   * and the registers left afterwards (only the x86-64 convention counts them).
   */
  method ClassifyNext(abi: ABI, args: seq<Type>, k: nat, freeInt: nat, freeSSE: nat)
      returns (info: ABIArgInfo, freeInt': nat, freeSSE': nat)
    requires AllWellFormed(args) && k < |args|
    requires abi.X86_64Convention? ==> X64.Budget(freeInt, freeSSE) == X64.BudgetAfter(args[..k])
    ensures info == ArgInfo(abi, args, k)
    ensures abi.X86_64Convention? ==> X64.Budget(freeInt', freeSSE') == X64.BudgetAfter(args[..k + 1])
  {
    freeInt', freeSSE' := freeInt, freeSSE;
    match abi {
      case X86_64Convention =>
        var a := X64.ClassifyArgumentType(args[k]);
        assert args[..k + 1][..k] == args[..k];
        if freeInt >= a.neededInt && freeSSE >= a.neededSSE {
          freeInt', freeSSE' := freeInt - a.neededInt, freeSSE - a.neededSSE;
          info := a.info;
        } else {
          info := Indirect(0);
        }
      case X86_32Convention(_) =>
        info := X86_32ABI.ClassifyArgumentType(args[k]);
      case ARMConvention =>
        info := ARMABI.ClassifyArgumentType(args[k]);
      case DefaultConvention =>
        info := DefaultABI.ClassifyArgumentType(args[k]);
    }
  }

  /**
   * computeInfo: fill in the record's dispositions. The x86-64 convention
   * walks the arguments with six general-purpose and eight SSE registers,
   * giving memory to an argument whose registers are not all free and never
   * revisiting an earlier argument; the other conventions classify each
   * argument on its own.
   */
  method ComputeInfo(abi: ABI, fi: FunctionInfo)
    requires WellFormed(fi.returnType) && AllWellFormed(fi.argTypes)
    requires |fi.argInfos| == |fi.argTypes|
    modifies fi
    ensures fi.Computed(abi)
  {
    fi.returnInfo := ReturnInfo(abi, fi.returnType);
    var args := fi.argTypes;
    var freeInt: nat, freeSSE: nat := 6, 8;
    var k := 0;
    while k < |args|
      invariant 0 <= k <= |args|
      invariant |fi.argInfos| == |args|
      invariant fi.returnInfo == ReturnInfo(abi, fi.returnType)
      invariant forall j :: 0 <= j < k ==> fi.argInfos[j] == ArgInfo(abi, args, j)
      invariant abi.X86_64Convention? ==> X64.Budget(freeInt, freeSSE) == X64.BudgetAfter(args[..k])
    {
      var info;
      info, freeInt, freeSSE := ClassifyNext(abi, args, k, freeInt, freeSSE);
      fi.argInfos := fi.argInfos[k := info];
      k := k + 1;
    }
  }

  /** CodeGenTypes' share of the calling-convention state: the chosen convention and the record cache. */
  class CodeGenTypes {
    const target: TargetInfo
    var theABIInfo: Option<ABI>
    var functionInfos: map<Signature, FunctionInfo>

    /** Every cached record is keyed by its own signature and holds that signature's dispositions. */
    predicate Valid()
      reads this, functionInfos.Values
    {
      (theABIInfo.Some? ==> theABIInfo.value == SelectABI(target)) &&
      forall s | s in functionInfos ::
        functionInfos[s].returnType == s.ret && functionInfos[s].argTypes == s.args &&
        functionInfos[s].Computed(SelectABI(target))
    }

    constructor(target: TargetInfo)
      ensures Valid()
      ensures this.target == target && theABIInfo == None && functionInfos == map[]
    {
      this.target := target;
      theABIInfo := None;
      functionInfos := map[];
    }

    /** getABIInfo: the convention for the target, chosen on first use and kept. */
    method GetABIInfo() returns (abi: ABI)
      requires Valid()
      modifies this
      ensures Valid()
      ensures abi == SelectABI(target) && theABIInfo == Some(abi)
      ensures functionInfos == old(functionInfos)
    {
      if theABIInfo.Some? {
        return theABIInfo.value;
      }
      abi := SelectABI(target);
      theABIInfo := Some(abi);
    }

    /**
     * getFunctionInfo: the record for (ret, args). A signature seen before
     * gets its existing record back, untouched; a new one gets a fresh record
     * whose dispositions are computed before it is returned.
     */
    method GetFunctionInfo(ret: Type, args: seq<Type>) returns (fi: FunctionInfo)
      requires Valid() && WellFormed(ret) && AllWellFormed(args)
      modifies this
      ensures Valid()
      ensures fi.returnType == ret && fi.argTypes == args && fi.Computed(SelectABI(target))
      ensures Signature(ret, args) in old(functionInfos) ==>
        fi == old(functionInfos)[Signature(ret, args)] && functionInfos == old(functionInfos)
      ensures Signature(ret, args) !in old(functionInfos) ==>
        fresh(fi) && functionInfos == old(functionInfos)[Signature(ret, args) := fi]
    {
      var key := Signature(ret, args);
      if key in functionInfos {
        return functionInfos[key];
      }
      var abi := GetABIInfo();
      fi := new FunctionInfo(ret, args);
      ComputeInfo(abi, fi);
      functionInfos := functionInfos[key := fi];
    }
  }

  /**
   * Looking a signature up twice yields the same record: the one the cache
   * then holds under that signature, carrying the convention's dispositions.
   */
  method LookupTwice(types: CodeGenTypes, ret: Type, args: seq<Type>) returns (first: FunctionInfo, second: FunctionInfo)
    requires types.Valid() && WellFormed(ret) && AllWellFormed(args)
    modifies types
    ensures types.Valid()
    ensures first == second
    ensures second.returnInfo == ReturnInfo(SelectABI(types.target), ret)
    ensures second.argInfos == ArgInfos(SelectABI(types.target), args)
    ensures Signature(ret, args) in types.functionInfos && types.functionInfos[Signature(ret, args)] == first
    ensures first.returnType == ret && first.argTypes == args
  {
    first := types.GetFunctionInfo(ret, args);
    ghost var cache := types.functionInfos;
    ghost var infos := (first.returnInfo, first.argInfos);
    second := types.GetFunctionInfo(ret, args);
    assert types.functionInfos == cache;
    assert (second.returnInfo, second.argInfos) == infos;
  }
}
