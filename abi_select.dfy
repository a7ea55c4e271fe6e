/**
 * Choosing the calling convention from the target description, and the
 * dispositions each convention gives a return type and an argument list.
 */
module TargetABI {
  import opened Types
  import opened RecordShape
  import X64 = X86_64ABI
  import X86_32ABI
  import ARMABI
  import DefaultABI

  /** What the target description says: its prefix ("x86", "arm", ...), its triple, its pointer width in bits. */
  datatype TargetInfo = TargetInfo(prefix: string, triple: string, pointerWidth: nat)

  datatype ABI = DefaultConvention | X86_32Convention(isDarwin: bool) | X86_64Convention | ARMConvention

  /** Whether needle occurs in s at position i. */
  predicate OccursAt(s: string, needle: string, i: nat)
  {
    i + |needle| <= |s| && s[i..i + |needle|] == needle
  }

  /** Whether needle occurs in s (the substring search applied to the target triple). */
  function Contains(s: string, needle: string): bool
    decreases |s|
  {
    if |s| < |needle| then false
    else if s[..|needle|] == needle then true
    else Contains(s[1..], needle)
  }

  /** The search finds needle exactly when it occurs at some position. */
  lemma {:induction false} ContainsIff(s: string, needle: string)
    ensures Contains(s, needle) <==> exists i: nat :: OccursAt(s, needle, i)
    decreases |s|
  {
    if |s| < |needle| {
      forall i: nat ensures !OccursAt(s, needle, i) {}
    } else if s[..|needle|] == needle {
      assert OccursAt(s, needle, 0);
    } else {
      ContainsIff(s[1..], needle);
      if Contains(s[1..], needle) {
        var i: nat :| OccursAt(s[1..], needle, i);
        assert s[i + 1..i + 1 + |needle|] == s[1..][i..i + |needle|];
        assert OccursAt(s, needle, i + 1);
      }
      if exists i: nat :: OccursAt(s, needle, i) {
        var i: nat :| OccursAt(s, needle, i);
        assert i != 0;
        assert s[1..][i - 1..i - 1 + |needle|] == s[i..i + |needle|];
        assert OccursAt(s[1..], needle, i - 1);
      }
    }
  }

  /**
   * getABIInfo's choice: x86 with 32-bit pointers is the 32-bit convention
   * (Darwin when the triple mentions darwin), x86 with 64-bit pointers the
   * x86-64 one; any other x86 pointer width, and any target that is neither
   * x86 nor arm, falls back to the default convention.
   */
  function SelectABI(target: TargetInfo): (r: ABI)
    ensures r.X86_32Convention? <==> target.prefix == "x86" && target.pointerWidth == 32
    ensures r.X86_32Convention? ==> (r.isDarwin <==> Contains(target.triple, "darwin"))
    ensures r.X86_64Convention? <==> target.prefix == "x86" && target.pointerWidth == 64
    ensures r.ARMConvention? <==> target.prefix == "arm"
    ensures r.DefaultConvention? <==>
      target.prefix != "arm" && (target.prefix != "x86" || target.pointerWidth !in {32, 64})
  {
    if target.prefix == "x86" then
      if target.pointerWidth == 32 then X86_32Convention(Contains(target.triple, "darwin"))
      else if target.pointerWidth == 64 then X86_64Convention
      else DefaultConvention
    else if target.prefix == "arm" then ARMConvention
    else DefaultConvention
  }

  /** The disposition of a return value under a convention. */
  function ReturnInfo(abi: ABI, t: Type): (r: ABIArgInfo)
    requires WellFormed(t)
    ensures !r.Expand?
    ensures IsVoid(t) ==> r == Ignore
  {
    match abi
    case DefaultConvention => DefaultABI.ClassifyReturnType(t)
    case X86_32Convention(darwin) => X86_32ABI.ClassifyReturnType(t, darwin)
    case X86_64Convention =>
      (if IsVoid(t) then X64.LongDoubleAndVoid(t); X64.ClassifyReturnType(t) else X64.ClassifyReturnType(t))
    case ARMConvention => ARMABI.ClassifyReturnType(t)
  }

  /** The disposition of argument i of args under a convention (x86-64 also counts registers). */
  function ArgInfo(abi: ABI, args: seq<Type>, i: nat): (r: ABIArgInfo)
    requires AllWellFormed(args) && i < |args|
    ensures r.Expand? ==> Expandable(args[i])
    ensures r == Direct ==> !IsAggregate(args[i])
  {
    match abi
    case DefaultConvention => DefaultABI.ClassifyArgumentType(args[i])
    case X86_32Convention(_) =>
      var r := X86_32ABI.ClassifyArgumentType(args[i]);
      (if r.Expand? then BasicStructExpandsToFields(args[i]); r else r)
    case X86_64Convention => X64.Assigned(args, i)
    case ARMConvention => ARMABI.ClassifyArgumentType(args[i])
  }

  /** The dispositions of a whole argument list. */
  function ArgInfos(abi: ABI, args: seq<Type>): (r: seq<ABIArgInfo>)
    requires AllWellFormed(args)
    ensures |r| == |args|
    ensures forall i :: 0 <= i < |args| ==> r[i] == ArgInfo(abi, args, i)
  {
    seq(|args|, i requires 0 <= i < |args| => ArgInfo(abi, args, i))
  }

  /** Only the 32-bit x86 convention ever splits an argument into its members. */
  lemma OnlyX86_32Expands(abi: ABI, args: seq<Type>, i: nat)
    requires AllWellFormed(args) && i < |args| && ArgInfo(abi, args, i) == Expand
    ensures abi.X86_32Convention?
  {
  }

  /** Every convention passes a scalar argument Direct, except that x86-64 sends it to memory when registers run out. */
  lemma ScalarsAreDirect(abi: ABI, args: seq<Type>, i: nat)
    requires AllWellFormed(args) && i < |args|
    requires IsIntegral(args[i]) || args[i].Pointer? || IsBuiltinKind(args[i], Float) || IsBuiltinKind(args[i], Double)
    ensures ArgInfo(abi, args, i) == Direct || (abi.X86_64Convention? && ArgInfo(abi, args, i) == Indirect(0))
  {
    if abi.X86_64Convention? {
      X64.ScalarDispositions(args[i]);
    }
  }
}
