/**
 * Moving arguments and return values across a call: what the caller puts
 * in each physical parameter (EmitCall), what the callee makes of them
 * (EmitFunctionProlog), and the same for the return value
 * (EmitFunctionEpilog and the end of EmitCall).
 */
module Marshal {
  import opened Types
  import opened RecordShape
  import opened Lowering
  import opened Attributes
  import opened Coercion
  import opened StructExpansion

  /** A value as the caller holds it: the value and the bytes of its in-memory form. */
  datatype Arg = Arg(value: Value, image: seq<Byte>)

  /** What a parameter variable (or a call's result) ends up holding. */
  datatype Received = Got(v: Value) | GotBytes(bytes: seq<Byte>) | Undefined

  /** An argument list the signature accepts: one per argument, and each expanded one shaped like its struct. */
  predicate ArgsFit(v: FnView, args: seq<Arg>)
  {
    |args| == |v.params| &&
    forall i :: 0 <= i < |v.params| ==> (v.params[i].info.Expand? ==> Fits(args[i].value, v.params[i].ty))
  }

  /** Every coerced argument's in-memory form has the padded size of its type's in-memory lowering. */
  predicate ImagesSized(v: FnView, args: seq<Arg>, sizeOf: LType -> nat)
    requires |args| == |v.params|
  {
    forall i :: 0 <= i < |v.params| ==>
      (v.params[i].info.Coerce? ==> |args[i].image| == sizeOf(ConvertedForMem(v.params[i].ty)))
  }

  /** The physical arguments of argument i within the whole list. */
  function PieceOf(v: FnView, phys: seq<Phys>, i: nat): seq<Phys>
    requires Lowerable(v) && i < |v.params| && |phys| == |ParamSlots(v)|
  {
    phys[ArgSlotStart(v, i)..ArgSlotStart(v, i + 1)]
  }

  /**
   * What the caller passes for one argument: its value (in a register, or
   * the address of a copy for Indirect), nothing when ignored, the
   * coerced bytes of its in-memory form, or its leaves when expanded.
   */
  function CallPiece(p: Param, a: Arg, sizeOf: LType -> nat): (r: Result<seq<Phys>>)
    requires p.info.Expand? ==> Expandable(p.ty) && Fits(a.value, p.ty)
    ensures r.Ok? <==> !(p.info.Coerce? && |a.image| > sizeOf(p.info.ty))
    ensures r.Ok? ==> |r.value| == |ArgSlots(0, p)|
  {
    match p.info
    case Ignore => Ok([])
    case Coerce(ty) =>
      var b := CoercedLoad(a.image, sizeOf(ty));
      if b.Ok? then Ok([Bits(b.value)]) else Failure(b.error)
    case Expand => Ok(Expansion(p.ty, a.value))
    case _ => Ok([Val(a.value)])
  }

  /** The caller's physical argument list: the sret pointer first when there is one, then each argument's piece. */
  predicate Sends(v: FnView, args: seq<Arg>, phys: seq<Phys>, sizeOf: LType -> nat)
    requires Lowerable(v) && ArgsFit(v, args)
  {
    |phys| == |ParamSlots(v)| &&
    (v.returnInfo.Indirect? ==> |phys| > 0 && phys[0] == SretPointer) &&
    forall i :: 0 <= i < |v.params| ==>
      CallPiece(v.params[i], args[i], sizeOf).Ok? && PieceOf(v, phys, i) == CallPiece(v.params[i], args[i], sizeOf).value
  }

  /** Each physical argument has the kind its disposition calls for (the lowered function type guarantees this). */
  predicate PieceConforms(p: Param, piece: seq<Phys>)
  {
    match p.info
    case Ignore => piece == []
    case Coerce(_) => |piece| == 1 && piece[0].Bits?
    case Expand => Expandable(p.ty) && |piece| == |Leaves(p.ty)| && ScalarValues(piece)
    case _ => |piece| == 1 && piece[0].Val?
  }

  predicate Conforms(v: FnView, phys: seq<Phys>)
    requires Lowerable(v)
  {
    |phys| == |ParamSlots(v)| &&
    forall i :: 0 <= i < |v.params| ==> PieceConforms(v.params[i], PieceOf(v, phys, i))
  }

  /** The callee's store of a coerced parameter does not come up short. */
  predicate CoerceStoreOk(p: Param, piece: seq<Phys>, sizeOf: LType -> nat)
  {
    p.info.Coerce? && |piece| == 1 && piece[0].Bits? ==> |piece[0].bytes| >= sizeOf(ConvertedForMem(p.ty))
  }

  /**
   * What the callee's parameter holds, given its physical arguments:
   * nothing defined when ignored, the stored-back bytes when coerced, the
   * struct rebuilt from its leaves when expanded, the value otherwise.
   */
  predicate Receives(p: Param, piece: seq<Phys>, rec: Received, sizeOf: LType -> nat)
  {
    match p.info
    case Ignore => rec == Undefined
    case Coerce(_) =>
      |piece| == 1 && piece[0].Bits? &&
      var b := CoercedStore(piece[0].bytes, sizeOf(ConvertedForMem(p.ty)));
      b.Ok? && rec == GotBytes(b.value)
    case Expand => Expandable(p.ty) && rec.Got? && Fits(rec.v, p.ty) && Expansion(p.ty, rec.v) == piece
    case _ => |piece| == 1 && piece[0].Val? && rec == Got(piece[0].v)
  }

  /** What a parameter should hold when the call is correct: what the caller passed, or nothing for an ignored one. */
  function Expected(p: Param, a: Arg): Received
  {
    match p.info
    case Ignore => Undefined
    case Coerce(_) => GotBytes(a.image)
    case _ => Got(a.value)
  }

  /** One argument of EmitCall: append what argument i passes. */
  method SendOne(p: Param, a: Arg, sizeOf: LType -> nat, ps: seq<Phys>) returns (r: Result<seq<Phys>>)
    requires p.info.Expand? ==> Expandable(p.ty) && Fits(a.value, p.ty)
    ensures r.Ok? <==> CallPiece(p, a, sizeOf).Ok?
    ensures r.Ok? ==> r.value == ps + CallPiece(p, a, sizeOf).value
  {
    match p.info {
      case Indirect(_) =>
        r := Ok(ps + [Val(a.value)]);
      case Direct =>
        r := Ok(ps + [Val(a.value)]);
      case Ignore =>
        r := Ok(ps);
      case Coerce(ty) =>
        var b := CoercedLoad(a.image, sizeOf(ty));
        if b.Failure? {
          return Failure(b.error);
        }
        r := Ok(ps + [Bits(b.value)]);
      case Expand =>
        var expanded := ExpandTypeToArgs(p.ty, a.value, ps);
        r := Ok(expanded);
    }
  }

  /** Argument j's physical arguments already sit at their place in ps. */
  predicate SentPiece(v: FnView, args: seq<Arg>, ps: seq<Phys>, j: nat, sizeOf: LType -> nat)
    requires Lowerable(v) && ArgsFit(v, args) && j < |v.params|
  {
    CallPiece(v.params[j], args[j], sizeOf).Ok? &&
    ArgSlotStart(v, j) <= ArgSlotStart(v, j + 1) <= |ps| &&
    ps[ArgSlotStart(v, j)..ArgSlotStart(v, j + 1)] == CallPiece(v.params[j], args[j], sizeOf).value
  }

  lemma {:induction false} SentPieceStays(v: FnView, args: seq<Arg>, ps: seq<Phys>, q: seq<Phys>, k: nat, j: nat, sizeOf: LType -> nat)
    requires Lowerable(v) && ArgsFit(v, args) && j < k <= |v.params| && |ps| == ArgSlotStart(v, k)
    requires SentPiece(v, args, ps, j, sizeOf)
    ensures SentPiece(v, args, ps + q, j, sizeOf)
  {
    assert (ps + q)[ArgSlotStart(v, j)..ArgSlotStart(v, j + 1)] == ps[ArgSlotStart(v, j)..ArgSlotStart(v, j + 1)];
  }

  /** One turn of EmitCall's argument loop. */
  method SendNext(v: FnView, args: seq<Arg>, sizeOf: LType -> nat, ps: seq<Phys>, k: nat) returns (r: Result<seq<Phys>>)
    requires Lowerable(v) && ArgsFit(v, args) && k < |v.params|
    requires |ps| == ArgSlotStart(v, k)
    requires forall j :: 0 <= j < k ==> SentPiece(v, args, ps, j, sizeOf)
    ensures r.Ok? <==> CallPiece(v.params[k], args[k], sizeOf).Ok?
    ensures r.Ok? ==> |r.value| == ArgSlotStart(v, k + 1) && r.value[..|ps|] == ps
    ensures r.Ok? ==> forall j :: 0 <= j < k + 1 ==> SentPiece(v, args, r.value, j, sizeOf)
  {
    r := SendOne(v.params[k], args[k], sizeOf, ps);
    if r.Ok? {
      SlotsBelongToTheirArgument(v, k);
      var q := CallPiece(v.params[k], args[k], sizeOf).value;
      forall j | 0 <= j < k
        ensures SentPiece(v, args, r.value, j, sizeOf)
      {
        SentPieceStays(v, args, ps, q, k, j, sizeOf);
      }
      assert r.value[ArgSlotStart(v, k)..ArgSlotStart(v, k + 1)] == q;
      assert SentPiece(v, args, r.value, k, sizeOf);
    }
  }

  /**
   * EmitCall's argument list: the sret temporary, then each argument by
   * its disposition. It fails exactly when some coerced argument would
   * lose bytes.
   */
  method EmitCallArgs(v: FnView, args: seq<Arg>, sizeOf: LType -> nat) returns (r: Result<seq<Phys>>)
    requires Lowerable(v) && ArgsFit(v, args)
    ensures r.Ok? <==> forall i :: 0 <= i < |v.params| ==> CallPiece(v.params[i], args[i], sizeOf).Ok?
    ensures r.Ok? ==> Sends(v, args, r.value, sizeOf)
  {
    var ps: seq<Phys> := [];
    SretSlotIsFirst(v);
    if v.returnInfo.Indirect? {
      ps := ps + [SretPointer];
    }
    var k := 0;
    while k < |v.params|
      invariant 0 <= k <= |v.params|
      invariant |ps| == ArgSlotStart(v, k)
      invariant v.returnInfo.Indirect? ==> |ps| > 0 && ps[0] == SretPointer
      invariant forall j :: 0 <= j < k ==> SentPiece(v, args, ps, j, sizeOf)
    {
      var next := SendNext(v, args, sizeOf, ps, k);
      if next.Failure? {
        return Failure(next.error);
      }
      if v.returnInfo.Indirect? {
        assert next.value[0] == next.value[..|ps|][0];
      }
      ps := next.value;
      k := k + 1;
    }
    assert |ps| == |ParamSlots(v)|;
    forall i | 0 <= i < |v.params|
      ensures CallPiece(v.params[i], args[i], sizeOf).Ok? && PieceOf(v, ps, i) == CallPiece(v.params[i], args[i], sizeOf).value
    {
      assert SentPiece(v, args, ps, i, sizeOf);
    }
    r := Ok(ps);
  }

  /** One parameter of the prolog: take its physical arguments starting at ai and return the position after them. */
  method ReceiveOne(p: Param, phys: seq<Phys>, ai: nat, sizeOf: LType -> nat) returns (r: Result<Received>, next: nat)
    requires p.info.Expand? ==> Expandable(p.ty)
    requires ai + |ArgSlots(0, p)| <= |phys| && PieceConforms(p, phys[ai..ai + |ArgSlots(0, p)|])
    ensures next == ai + |ArgSlots(0, p)|
    ensures r.Ok? <==> CoerceStoreOk(p, phys[ai..next], sizeOf)
    ensures r.Ok? ==> Receives(p, phys[ai..next], r.value, sizeOf)
  {
    match p.info {
      case Indirect(_) =>
        assert phys[ai..ai + 1][0] == phys[ai];
        r, next := Ok(Got(phys[ai].v)), ai + 1;
      case Direct =>
        assert phys[ai..ai + 1][0] == phys[ai];
        r, next := Ok(Got(phys[ai].v)), ai + 1;
      case Expand =>
        var value;
        value, next := ExpandTypeFromArgs(p.ty, phys, ai);
        r := Ok(Got(value));
      case Ignore =>
        r, next := Ok(Undefined), ai;
      case Coerce(_) =>
        assert phys[ai..ai + 1][0] == phys[ai];
        var b := CoercedStore(phys[ai].bytes, sizeOf(ConvertedForMem(p.ty)));
        next := ai + 1;
        if b.Failure? {
          r := Failure(b.error);
        } else {
          r := Ok(GotBytes(b.value));
        }
    }
  }

  /** Parameter j was received as rec, its coerced store (if any) coming out whole. */
  predicate ReceivedPiece(v: FnView, phys: seq<Phys>, j: nat, rec: Received, sizeOf: LType -> nat)
    requires Lowerable(v) && j < |v.params| && |phys| == |ParamSlots(v)|
  {
    CoerceStoreOk(v.params[j], PieceOf(v, phys, j), sizeOf) && Receives(v.params[j], PieceOf(v, phys, j), rec, sizeOf)
  }

  /** Parameter k of the prolog, taken from its own physical arguments. */
  method ReceiveAt(v: FnView, phys: seq<Phys>, k: nat, sizeOf: LType -> nat) returns (r: Result<Received>, next: nat)
    requires Lowerable(v) && Conforms(v, phys) && k < |v.params|
    ensures next == ArgSlotStart(v, k + 1)
    ensures r.Ok? <==> CoerceStoreOk(v.params[k], PieceOf(v, phys, k), sizeOf)
    ensures r.Ok? ==> ReceivedPiece(v, phys, k, r.value, sizeOf)
  {
    var p := v.params[k];
    var ai := ArgSlotStart(v, k);
    SlotsBelongToTheirArgument(v, k);
    assert |ArgSlots(k, p)| == |ArgSlots(0, p)|;
    var piece := PieceOf(v, phys, k);
    assert PieceConforms(p, piece);
    assert piece == phys[ai..ai + |ArgSlots(0, p)|];
    r, next := ReceiveOne(p, phys, ai, sizeOf);
  }

  /** One turn of the prolog's loop: parameter k appended to what was received so far. */
  method ReceiveNext(v: FnView, phys: seq<Phys>, k: nat, recv: seq<Received>, sizeOf: LType -> nat)
      returns (r: Result<seq<Received>>, next: nat)
    requires Lowerable(v) && Conforms(v, phys) && k < |v.params|
    requires |recv| == k && forall j :: 0 <= j < k ==> ReceivedPiece(v, phys, j, recv[j], sizeOf)
    ensures next == ArgSlotStart(v, k + 1)
    ensures r.Ok? <==> CoerceStoreOk(v.params[k], PieceOf(v, phys, k), sizeOf)
    ensures r.Ok? ==> (|r.value| == k + 1 && forall j :: 0 <= j < k + 1 ==> ReceivedPiece(v, phys, j, r.value[j], sizeOf))
  {
    var got;
    got, next := ReceiveAt(v, phys, k, sizeOf);
    if got.Failure? {
      return Failure(got.error), next;
    }
    r := Ok(recv + [got.value]);
    forall j | 0 <= j < k + 1
      ensures ReceivedPiece(v, phys, j, r.value[j], sizeOf)
    {
      if j < k {
        assert r.value[j] == recv[j];
      }
    }
  }

  lemma ReceivedStoresOk(v: FnView, phys: seq<Phys>, recv: seq<Received>, sizeOf: LType -> nat)
    requires Lowerable(v) && |phys| == |ParamSlots(v)| && |recv| == |v.params|
    requires forall j :: 0 <= j < |v.params| ==> ReceivedPiece(v, phys, j, recv[j], sizeOf)
    ensures forall j :: 0 <= j < |v.params| ==> CoerceStoreOk(v.params[j], PieceOf(v, phys, j), sizeOf)
  {
    forall j | 0 <= j < |v.params|
      ensures CoerceStoreOk(v.params[j], PieceOf(v, phys, j), sizeOf)
    {
      assert ReceivedPiece(v, phys, j, recv[j], sizeOf);
    }
  }

  /**
   * EmitFunctionProlog: walk the physical parameters (skipping the sret
   * pointer) and give each declared parameter its value. Every physical
   * parameter is used exactly once; the prolog fails exactly when a
   * coerced parameter is too short to fill its variable.
   */
  method EmitFunctionProlog(v: FnView, phys: seq<Phys>, sizeOf: LType -> nat) returns (r: Result<seq<Received>>)
    requires Lowerable(v) && Conforms(v, phys)
    ensures r.Ok? <==> forall i :: 0 <= i < |v.params| ==> CoerceStoreOk(v.params[i], PieceOf(v, phys, i), sizeOf)
    ensures r.Ok? ==> (|r.value| == |v.params| &&
      forall i :: 0 <= i < |v.params| ==> ReceivedPiece(v, phys, i, r.value[i], sizeOf))
  {
    SretSlotIsFirst(v);
    var ai := if v.returnInfo.Indirect? then 1 else 0;
    var recv: seq<Received> := [];
    var k := 0;
    while k < |v.params|
      invariant 0 <= k <= |v.params| && |recv| == k
      invariant ai == ArgSlotStart(v, k)
      invariant forall j :: 0 <= j < k ==> ReceivedPiece(v, phys, j, recv[j], sizeOf)
    {
      var got, next := ReceiveNext(v, phys, k, recv, sizeOf);
      if got.Failure? {
        return Failure(got.error);
      }
      recv, ai, k := got.value, next, k + 1;
    }
    assert ai == |phys|;
    ReceivedStoresOk(v, phys, recv, sizeOf);
    r := Ok(recv);
  }

  /**
   * What the caller sends is what the callee receives: every parameter
   * gets the caller's value (for a coerced one, the bytes of its in-memory
   * form; for an expanded one, the struct rebuilt from its leaves), an
   * ignored one gets nothing, and the callee's coerced stores never come
   * up short.
   */
  lemma {:induction false} CalleeReceivesWhatCallerSent(v: FnView, args: seq<Arg>, phys: seq<Phys>, sizeOf: LType -> nat)
    requires Lowerable(v) && ArgsFit(v, args) && ImagesSized(v, args, sizeOf) && Sends(v, args, phys, sizeOf)
    ensures Conforms(v, phys)
    ensures forall i :: 0 <= i < |v.params| ==> CoerceStoreOk(v.params[i], PieceOf(v, phys, i), sizeOf)
    ensures forall i, rec :: 0 <= i < |v.params| && Receives(v.params[i], PieceOf(v, phys, i), rec, sizeOf) ==>
      rec == Expected(v.params[i], args[i])
  {
    forall i | 0 <= i < |v.params|
      ensures PieceConforms(v.params[i], PieceOf(v, phys, i))
      ensures CoerceStoreOk(v.params[i], PieceOf(v, phys, i), sizeOf)
    {
      var p := v.params[i];
      if p.info.Coerce? {
        CoercionRoundTrip(args[i].image, sizeOf(p.info.ty));
      }
    }
    forall i, rec | 0 <= i < |v.params| && Receives(v.params[i], PieceOf(v, phys, i), rec, sizeOf)
      ensures rec == Expected(v.params[i], args[i])
    {
      var p := v.params[i];
      if p.info.Expand? {
        ExpansionInjective(p.ty, rec.v, args[i].value);
      } else if p.info.Coerce? {
        CoercionRoundTrip(args[i].image, sizeOf(p.info.ty));
      }
    }
  }

  /**
   * Both ends of a call's arguments together: the caller marshals, the
   * callee's prolog unmarshals, and each parameter ends up with what the
   * caller passed. Only a coerced argument wider than its register type
   * stops the call.
   */
  method PassArguments(v: FnView, args: seq<Arg>, sizeOf: LType -> nat) returns (r: Result<seq<Received>>)
    requires Lowerable(v) && ArgsFit(v, args) && ImagesSized(v, args, sizeOf)
    ensures r.Ok? <==> forall i :: 0 <= i < |v.params| ==>
      !(v.params[i].info.Coerce? && |args[i].image| > sizeOf(v.params[i].info.ty))
    ensures r.Ok? ==> (|r.value| == |v.params| &&
      forall i :: 0 <= i < |v.params| ==> r.value[i] == Expected(v.params[i], args[i]))
  {
    var phys := EmitCallArgs(v, args, sizeOf);
    if phys.Failure? {
      return Failure(phys.error);
    }
    CalleeReceivesWhatCallerSent(v, args, phys.value, sizeOf);
    r := EmitFunctionProlog(v, phys.value, sizeOf);
  }

  /** How a function hands back its result: ret void (after storing through the sret pointer, if it did), or ret of a value. */
  datatype Epilogue = RetVoid(stored: Option<Value>) | Ret(p: Phys)

  /**
   * EmitFunctionEpilog: a function without a result returns void; an
   * Indirect result is stored through the sret pointer; a Direct one is
   * returned as it is; a coerced one is loaded as the coerced type.
   */
  function EmitFunctionEpilog(v: FnView, returnValue: Option<Arg>, sizeOf: LType -> nat): (r: Result<Epilogue>)
    ensures r.Failure? <==> returnValue.Some? && v.returnInfo.Coerce? && |returnValue.value.image| > sizeOf(v.returnInfo.ty)
    ensures r.Ok? && r.value.Ret? ==> returnValue.Some? && (v.returnInfo.Direct? || v.returnInfo.Coerce?)
    ensures r.Ok? && r.value.RetVoid? && r.value.stored.Some? ==> returnValue.Some? && v.returnInfo.Indirect?
  {
    match returnValue
    case None => Ok(RetVoid(None))
    case Some(a) =>
      match v.returnInfo
      case Indirect(_) => Ok(RetVoid(Some(a.value)))
      case Direct => Ok(Ret(Val(a.value)))
      case Coerce(ty) =>
        var b := CoercedLoad(a.image, sizeOf(ty));
        if b.Ok? then Ok(Ret(Bits(b.value))) else Failure(b.error)
      case _ => Ok(RetVoid(None))
  }

  /** The epilogue has the form the return disposition calls for (the lowered function type guarantees this). */
  predicate ReturnConforms(info: ABIArgInfo, ep: Epilogue)
  {
    match info
    case Indirect(_) => ep.RetVoid? && ep.stored.Some?
    case Direct => ep.Ret? && ep.p.Val?
    case Coerce(_) => ep.Ret? && ep.p.Bits?
    case _ => true
  }

  /**
   * The caller's view of a call's result: nothing for a call that does not
   * return or an ignored result, the sret temporary's contents, the value
   * returned, or the returned bytes stored back into the result's type.
   */
  function ResultOfCall(v: FnView, ep: Epilogue, noReturn: bool, sizeOf: LType -> nat): (r: Result<Received>)
    requires noReturn || ReturnConforms(v.returnInfo, ep)
    ensures noReturn || v.returnInfo.Ignore? || v.returnInfo.Expand? ==> r == Ok(Undefined)
    ensures r.Failure? <==> !noReturn && v.returnInfo.Coerce? && |ep.p.bytes| < sizeOf(ConvertedForMem(v.returnType))
  {
    if noReturn then Ok(Undefined)
    else
      match v.returnInfo
      case Indirect(_) => Ok(Got(ep.stored.value))
      case Direct => Ok(Got(ep.p.v))
      case Coerce(_) =>
        var b := CoercedStore(ep.p.bytes, sizeOf(ConvertedForMem(v.returnType)));
        if b.Ok? then Ok(GotBytes(b.value)) else Failure(b.error)
      case _ => Ok(Undefined)
  }

  /**
   * What the callee returns is what the caller gets: the value through the
   * sret temporary or a register, the in-memory bytes of a coerced result,
   * nothing for an ignored one.
   */
  lemma CallerReceivesWhatCalleeReturned(v: FnView, ret: Arg, sizeOf: LType -> nat)
    requires !v.returnInfo.Expand?
    requires v.returnInfo.Coerce? ==> |ret.image| == sizeOf(ConvertedForMem(v.returnType))
    ensures EmitFunctionEpilog(v, Some(ret), sizeOf).Ok? <==> !(v.returnInfo.Coerce? && |ret.image| > sizeOf(v.returnInfo.ty))
    ensures EmitFunctionEpilog(v, Some(ret), sizeOf).Ok? ==>
      var ep := EmitFunctionEpilog(v, Some(ret), sizeOf).value;
      ReturnConforms(v.returnInfo, ep) && ResultOfCall(v, ep, false, sizeOf) == Ok(Expected(Param(v.returnType, v.returnInfo), ret))
  {
    if v.returnInfo.Coerce? {
      CoercionRoundTrip(ret.image, sizeOf(v.returnInfo.ty));
    }
  }

  datatype CallInst = PlainCall | Invoke

  /** The emitted call: call or invoke, its physical arguments, its attribute list. */
  datatype CallSite = CallSite(inst: CallInst, args: seq<Phys>, attrs: seq<AttrEntry>)

  datatype CallOutcome = CallOutcome(site: CallSite, result: Received)

  /**
   * EmitCall: marshal the arguments, attach the attribute list, emit an
   * invoke only when there is a landing pad and the callee may unwind, and
   * turn what the callee hands back into the call's result (nothing at all
   * when the callee does not return).
   */
  method EmitCall(v: FnView, args: seq<Arg>, decl: Option<DeclAttrs>, hasInvokeDest: bool,
                  sizeOf: LType -> nat, returned: Epilogue) returns (r: Result<CallOutcome>)
    requires Lowerable(v) && ArgsFit(v, args) && ReturnConforms(v.returnInfo, returned)
    ensures r.Ok? <==>
      (forall i :: 0 <= i < |v.params| ==> CallPiece(v.params[i], args[i], sizeOf).Ok?) &&
      ResultOfCall(v, returned, NoReturn in FunctionAttrs(v, decl), sizeOf).Ok?
    ensures r.Ok? ==> Sends(v, args, r.value.site.args, sizeOf)
    ensures r.Ok? ==> r.value.site.attrs == AttributeList(v, decl)
    ensures r.Ok? ==> (r.value.site.inst == Invoke <==> hasInvokeDest && NoUnwind !in FunctionAttrs(v, decl))
    ensures r.Ok? ==> r.value.result == ResultOfCall(v, returned, NoReturn in FunctionAttrs(v, decl), sizeOf).value
  {
    var phys := EmitCallArgs(v, args, sizeOf);
    if phys.Failure? {
      return Failure(phys.error);
    }
    var attrs := ConstructAttributeList(v, decl);
    var fnAttrs := FunctionAttrs(v, decl);
    var inst := if !hasInvokeDest || NoUnwind in fnAttrs then PlainCall else Invoke;
    var result := ResultOfCall(v, returned, NoReturn in fnAttrs, sizeOf);
    if result.Failure? {
      return Failure(result.error);
    }
    r := Ok(CallOutcome(CallSite(inst, phys.value, attrs), result.value));
  }
}
