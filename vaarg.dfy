/**
 * va_arg: fetching the next variadic argument through a va_list and moving
 * the va_list on. The x86-64 va_list is a record of two offsets into the
 * register save area and a pointer into the overflow (stack) area
 * (section 3.5.7 of the System V AMD64 psABI); the x86-32 and ARM va_list is
 * a single pointer bumped past each argument.
 */
module VarArgs {
  import opened Types
  import opened TargetABI
  import X64 = X86_64ABI

  /** Bytes of the register save area holding the six general-purpose registers. */
  const GpSaveBytes: nat := 48

  /** Bytes of the whole register save area: six 8-byte general-purpose and eight 16-byte SSE slots. */
  const SaveAreaBytes: nat := 176

  /** x rounded up to a multiple of a (the callers align to 4, 8 or 16 bytes). */
  function RoundUp(x: nat, a: nat): (r: nat)
    requires a == 4 || a == 8 || a == 16
    ensures r % a == 0 && x <= r < x + a
  {
    if a == 4 then var q := (x + 3) / 4; assert x <= 4 * q < x + 4; 4 * q
    else if a == 8 then var q := (x + 7) / 8; assert x <= 8 * q < x + 8; 8 * q
    else var q := (x + 15) / 16; assert x <= 16 * q < x + 16; 16 * q
  }

  /** Adding two multiples of a gives a multiple of a. */
  lemma AlignedSum(x: nat, y: nat, a: nat)
    requires (a == 4 || a == 8 || a == 16) && x % a == 0 && y % a == 0
    ensures (x + y) % a == 0
  {
    var p, q := x / a, y / a;
    assert x == a * p && y == a * q;
    assert x + y == a * (p + q);
  }

  /** Where va_arg finds the value: register save-area slots (general-purpose, SSE), or an address in memory. */
  datatype Fetched = InSaveArea(gpSlots: seq<nat>, sseSlots: seq<nat>) | InMemory(addr: nat)

  /** The addresses of n consecutive save-area slots of the given stride, starting at start. */
  function Slots(start: nat, stride: nat, n: nat): (r: seq<nat>)
    ensures |r| == n
    ensures forall k :: 0 <= k < n ==> r[k] == start + stride * k
  {
    seq(n, k requires 0 <= k < n => start + stride * k)
  }

  /**
   * Step 3 of the psABI algorithm: the value may be fetched from the save
   * area when each register kind it needs still has that many slots left,
   * that is, when none of its slots would run past the area for its kind.
   */
  function FitsInRegisters(gpOffset: nat, fpOffset: nat, neededInt: nat, neededSSE: nat): (r: bool)
    requires neededInt <= 2 && neededSSE <= 2
    ensures r <==> (neededInt > 0 ==> gpOffset + 8 * neededInt <= GpSaveBytes) &&
                   (neededSSE > 0 ==> fpOffset + 16 * neededSSE <= SaveAreaBytes)
  {
    (neededInt == 0 || gpOffset <= GpSaveBytes - neededInt * 8) &&
    (neededSSE == 0 || fpOffset <= SaveAreaBytes - neededSSE * 16)
  }

  /**
   * Steps 7 to 10: where a value is taken from the overflow area and where
   * the area's pointer goes next. The pointer is first aligned to 16 when
   * the type wants more than 8-byte alignment; the value is read there, and
   * the pointer moves past it by its byte size rounded up to 8.
   */
  function OverflowFetch(area: nat, t: Type): (r: (nat, nat))
    ensures area <= r.0 < area + 16
    ensures Align(t) / 8 > 8 ==> r.0 % 16 == 0
    ensures Align(t) / 8 <= 8 ==> r.0 == area
    ensures r.0 + (Size(t) + 7) / 8 <= r.1 < r.0 + (Size(t) + 7) / 8 + 8
    ensures (r.1 - r.0) % 8 == 0
    ensures r.0 % 8 == 0 ==> r.1 % 8 == 0
  {
    var bytes := (Size(t) + 7) / 8;
    var addr := if Align(t) / 8 > 8 then RoundUp(area, 16) else area;
    var step := RoundUp(bytes, 8);
    if addr % 8 == 0 then AlignedSum(addr, step, 8); (addr, addr + step)
    else (addr, addr + step)
  }

  /** OverflowFetch step by step: the aligned address, then the bump past the value. */
  lemma OverflowSteps(area: nat, t: Type)
    ensures OverflowFetch(area, t) ==
      var addr := if Align(t) / 8 > 8 then RoundUp(area, 16) else area;
      (addr, addr + RoundUp((Size(t) + 7) / 8, 8))
  {
  }

  /**
   * What one x86-64 va_arg does, from the offsets gp and fp and the overflow
   * area `area` to the fetch f and the new gp2, fp2 and area2: a value that
   * needs registers and finds them free is read from its slots in the save
   * area, and the offsets move past them by 8 per general-purpose and 16
   * per SSE register; any other value is read from the overflow area, which
   * moves past it, and the offsets stay.
   */
  predicate X64Fetch(t: Type, regSaveArea: nat, gp: nat, fp: nat, area: nat, f: Fetched, gp2: nat, fp2: nat, area2: nat)
    requires WellFormed(t)
  {
    var a := X64.ClassifyArgumentType(t);
    var inRegs := (a.neededInt > 0 || a.neededSSE > 0) && FitsInRegisters(gp, fp, a.neededInt, a.neededSSE);
    (inRegs ==>
      f == InSaveArea(Slots(regSaveArea + gp, 8, a.neededInt), Slots(regSaveArea + fp, 16, a.neededSSE)) &&
      gp2 == gp + 8 * a.neededInt && fp2 == fp + 16 * a.neededSSE && area2 == area) &&
    (!inRegs ==>
      f.InMemory? && (f.addr, area2) == OverflowFetch(area, t) && gp2 == gp && fp2 == fp)
  }

  /** The x86-64 va_list: offsets of the next free general-purpose and SSE slots, and the two areas. */
  class X86_64VaList {
    var gpOffset: nat
    var fpOffset: nat
    var overflowArea: nat
    const regSaveArea: nat

    /**
     * The offsets point at slot boundaries within the area for their kind,
     * as va_start leaves them and as va_arg keeps them.
     */
    predicate Valid()
      reads this
    {
      gpOffset <= GpSaveBytes && gpOffset % 8 == 0 &&
      GpSaveBytes <= fpOffset <= SaveAreaBytes && (fpOffset - GpSaveBytes) % 16 == 0
    }

    constructor(gpOffset: nat, fpOffset: nat, overflowArea: nat, regSaveArea: nat)
      ensures this.gpOffset == gpOffset && this.fpOffset == fpOffset
      ensures this.overflowArea == overflowArea && this.regSaveArea == regSaveArea
    {
      this.gpOffset := gpOffset;
      this.fpOffset := fpOffset;
      this.overflowArea := overflowArea;
      this.regSaveArea := regSaveArea;
    }

    /** EmitVAArgFromMemory: take the value from the overflow area and move the area's pointer past it. */
    method FromMemory(t: Type) returns (addr: nat)
      modifies this
      ensures (addr, overflowArea) == OverflowFetch(old(overflowArea), t)
      ensures gpOffset == old(gpOffset) && fpOffset == old(fpOffset)
    {
      var area := overflowArea;
      OverflowSteps(area, t);
      if Align(t) / 8 > 8 {
        area := RoundUp(area, 16);
      }
      addr := area;
      var sizeInBytes := (Size(t) + 7) / 8;
      overflowArea := area + RoundUp(sizeInBytes, 8);
    }

    /**
     * Steps 4 and 5 of va_arg: the value is read from the save-area slots
     * starting at the two offsets, and each offset moves past the slots it
     * gave, 8 bytes per general-purpose and 16 per SSE register.
     */
    method FromRegisters(neededInt: nat, neededSSE: nat) returns (f: Fetched)
      modifies this
      ensures f == InSaveArea(Slots(regSaveArea + old(gpOffset), 8, neededInt), Slots(regSaveArea + old(fpOffset), 16, neededSSE))
      ensures gpOffset == old(gpOffset) + 8 * neededInt && fpOffset == old(fpOffset) + 16 * neededSSE
      ensures overflowArea == old(overflowArea)
      ensures (old(Valid()) && neededInt <= 2 && neededSSE <= 2 &&
               FitsInRegisters(old(gpOffset), old(fpOffset), neededInt, neededSSE)) ==> Valid()
    {
      f := InSaveArea(Slots(regSaveArea + gpOffset, 8, neededInt), Slots(regSaveArea + fpOffset, 16, neededSSE));
      if neededInt > 0 {
        gpOffset := gpOffset + neededInt * 8;
      }
      if neededSSE > 0 {
        fpOffset := fpOffset + neededSSE * 16;
      }
    }

    /**
     * EmitVAArg: a value that needs no registers comes from memory. One
     * that does comes from the save area when its registers fit, taking
     * its general-purpose slots from gpOffset on and its SSE slots from
     * fpOffset on and moving both offsets past them; otherwise it comes
     * from memory and the offsets stay where they are.
     */
    method EmitVAArg(t: Type) returns (f: Fetched)
      requires WellFormed(t)
      modifies this
      ensures X64Fetch(t, regSaveArea, old(gpOffset), old(fpOffset), old(overflowArea), f, gpOffset, fpOffset, overflowArea)
      ensures old(Valid()) ==> Valid()
    {
      var a := X64.ClassifyArgumentType(t);
      var neededInt, neededSSE := a.neededInt, a.neededSSE;
      if neededInt == 0 && neededSSE == 0 {
        var addr := FromMemory(t);
        f := InMemory(addr);
        return;
      }
      var inRegs := true;
      if neededInt > 0 {
        inRegs := gpOffset <= GpSaveBytes - neededInt * 8;
      }
      if neededSSE > 0 {
        var fitsInFP := fpOffset <= SaveAreaBytes - neededSSE * 16;
        inRegs := inRegs && fitsInFP;
      }
      assert inRegs == FitsInRegisters(gpOffset, fpOffset, neededInt, neededSSE);
      if inRegs {
        f := FromRegisters(neededInt, neededSSE);
      } else {
        var addr := FromMemory(t);
        f := InMemory(addr);
      }
    }
  }

  /**
   * Consecutive va_arg calls never read the same save-area slot: every slot
   * a fetch reads lies below the offset it leaves for the next fetch, and
   * at or above the one it started from; and a fetch never reads past the
   * end of the area for its kind.
   */
  lemma {:induction false} SaveAreaSlotsAreFresh(gpOffset: nat, fpOffset: nat, base: nat, t: Type)
    requires WellFormed(t)
    requires var a := X64.ClassifyArgumentType(t);
      (a.neededInt > 0 || a.neededSSE > 0) && FitsInRegisters(gpOffset, fpOffset, a.neededInt, a.neededSSE)
    ensures var a := X64.ClassifyArgumentType(t);
      var gp, sse := Slots(base + gpOffset, 8, a.neededInt), Slots(base + fpOffset, 16, a.neededSSE);
      (forall k :: 0 <= k < |gp| ==> base + gpOffset <= gp[k] && gp[k] + 8 <= base + gpOffset + 8 * a.neededInt <= base + GpSaveBytes) &&
      (forall k :: 0 <= k < |sse| ==> base + fpOffset <= sse[k] && sse[k] + 16 <= base + fpOffset + 16 * a.neededSSE <= base + SaveAreaBytes)
  {
    var a := X64.ClassifyArgumentType(t);
    var gp, sse := Slots(base + gpOffset, 8, a.neededInt), Slots(base + fpOffset, 16, a.neededSSE);
    forall k | 0 <= k < |gp|
      ensures gp[k] + 8 <= base + gpOffset + 8 * a.neededInt
    {
      assert gp[k] == base + gpOffset + 8 * k;
    }
    forall k | 0 <= k < |sse|
      ensures sse[k] + 16 <= base + fpOffset + 16 * a.neededSSE
    {
      assert sse[k] == base + fpOffset + 16 * k;
    }
  }

  /** The x86-32 and ARM va_list: a pointer to the next argument in memory. */
  class PointerVaList {
    var ap: nat

    constructor(ap: nat)
      ensures this.ap == ap
    {
      this.ap := ap;
    }

    /**
     * EmitVAArg (x86-32 and ARM alike): the value is where the pointer
     * points, and the pointer moves past it by its byte size rounded up to
     * 4, with no alignment of its own.
     */
    method EmitVAArg(t: Type) returns (addr: nat)
      modifies this
      ensures addr == old(ap) && ap == old(ap) + RoundUp(Size(t) / 8, 4)
    {
      addr := ap;
      var offset := (Size(t) / 8 + 3) / 4 * 4;
      ap := addr + offset;
    }
  }

  /** The pointer bump moves past the whole value and keeps the pointer 4-byte aligned. */
  lemma PointerBumpCoversValue(ap: nat, t: Type)
    ensures ap + Size(t) / 8 <= ap + RoundUp(Size(t) / 8, 4) < ap + Size(t) / 8 + 4
    ensures ap % 4 == 0 ==> (ap + RoundUp(Size(t) / 8, 4)) % 4 == 0
  {
    var step := RoundUp(Size(t) / 8, 4);
    if ap % 4 == 0 {
      AlignedSum(ap, step, 4);
    }
  }

  /**
   * CodeGenFunction::EmitVAArg: the target's convention decides how the
   * value is fetched; the default convention has no va_arg and yields no
   * address.
   */
  method EmitVAArgFor(abi: ABI, t: Type, x64: X86_64VaList, ptr: PointerVaList) returns (f: Option<Fetched>)
    requires WellFormed(t)
    modifies x64, ptr
    ensures abi.DefaultConvention? <==> f.None?
    ensures !abi.X86_64Convention? ==> unchanged(x64)
    ensures abi.X86_64Convention? ==> unchanged(ptr)
    ensures abi.X86_64Convention? ==>
      f.Some? &&
      X64Fetch(t, x64.regSaveArea, old(x64.gpOffset), old(x64.fpOffset), old(x64.overflowArea),
               f.value, x64.gpOffset, x64.fpOffset, x64.overflowArea) &&
      (old(x64.Valid()) ==> x64.Valid())
    ensures (abi.X86_32Convention? || abi.ARMConvention?) ==>
      f == Some(InMemory(old(ptr.ap))) && ptr.ap == old(ptr.ap) + RoundUp(Size(t) / 8, 4)
  {
    match abi {
      case X86_64Convention =>
        var r := x64.EmitVAArg(t);
        f := Some(r);
      case X86_32Convention(_) =>
        var addr := ptr.EmitVAArg(t);
        f := Some(InMemory(addr));
      case ARMConvention =>
        var addr := ptr.EmitVAArg(t);
        f := Some(InMemory(addr));
      case DefaultConvention =>
        f := None;
    }
  }
}
