/**
 * The parameter attributes a lowered function or call carries: sign and
 * zero extension, by-value and sret pointers, and the function-wide
 * attributes that follow from the declaration.
 */
module Attributes {
  import opened Types
  import opened Lowering

  datatype Attr = SExt | ZExt | ByVal | Alignment(bytes: nat) | StructRet | NoAlias
                | NoUnwind | NoReturn | ReadOnly | ReadNone

  /** Where an attribute set applies: the return value, the n-th physical parameter (from 1), or the function. */
  datatype AttrIndex = ReturnIndex | ParamIndex(n: nat) | FunctionIndex

  datatype AttrEntry = AttrEntry(index: AttrIndex, attrs: set<Attr>)

  /** The attributes written on the called declaration. */
  datatype DeclAttrs = DeclAttrs(noThrow: bool, noReturn: bool, pure: bool, isConst: bool)

  /** The function attributes a declaration asks for (none when the callee is not known). */
  function DeclFunctionAttrs(decl: Option<DeclAttrs>): (r: set<Attr>)
    ensures NoUnwind in r <==> decl.Some? && decl.value.noThrow
    ensures NoReturn in r <==> decl.Some? && decl.value.noReturn
    ensures ReadOnly in r <==> decl.Some? && decl.value.pure
    ensures ReadNone in r <==> decl.Some? && decl.value.isConst
    ensures r <= {NoUnwind, NoReturn, ReadOnly, ReadNone}
  {
    match decl
    case None => {}
    case Some(d) =>
      (if d.noThrow then {NoUnwind} else {}) + (if d.noReturn then {NoReturn} else {}) +
      (if d.pure then {ReadOnly} else {}) + (if d.isConst then {ReadNone} else {})
  }

  /** A promotable integer passed or returned Direct is sign- or zero-extended by its signedness. */
  function ExtensionAttrs(t: Type): (r: set<Attr>)
    ensures r == {SExt} <==> IsPromotableInteger(t) && IsSignedInteger(t)
    ensures r == {ZExt} <==> IsPromotableInteger(t) && IsUnsignedInteger(t)
    ensures r == {} <==> !IsPromotableInteger(t)
  {
    if IsPromotableInteger(t) then
      if IsSignedInteger(t) then {SExt}
      else if IsUnsignedInteger(t) then {ZExt}
      else {}
    else {}
  }

  /** An argument's own attributes: byval with its alignment (when one is given) for Indirect, extension for Direct. */
  function ArgAttrs(p: Param): (r: set<Attr>)
    ensures ByVal in r <==> p.info.Indirect?
    ensures p.info.Indirect? ==> (Alignment(p.info.align) in r <==> p.info.align != 0)
    ensures p.info.Coerce? || p.info.Ignore? || p.info.Expand? ==> r == {}
    ensures p.info.Direct? ==> r == ExtensionAttrs(p.ty)
    ensures p.info.Direct? && IsPromotableInteger(p.ty) ==> r == (if IsSignedInteger(p.ty) then {SExt} else {ZExt})
    ensures p.info.Direct? && !IsPromotableInteger(p.ty) ==> r == {}
  {
    match p.info
    case Indirect(a) => {ByVal} + (if a != 0 then {Alignment(a)} else {})
    case Direct => ExtensionAttrs(p.ty)
    case _ => {}
  }

  /** Whether some argument is passed by value in memory. */
  predicate HasByValArg(v: FnView)
  {
    exists j :: 0 <= j < |v.params| && v.params[j].info.Indirect?
  }

  /**
   * The function attributes: the declaration's, except that a pure or const
   * function keeps readonly / readnone only when nothing is returned through
   * an sret pointer and nothing is passed byval.
   */
  function FunctionAttrs(v: FnView, decl: Option<DeclAttrs>): (r: set<Attr>)
    ensures ReadOnly in r <==> decl.Some? && decl.value.pure && !v.returnInfo.Indirect? && !HasByValArg(v)
    ensures ReadNone in r <==> decl.Some? && decl.value.isConst && !v.returnInfo.Indirect? && !HasByValArg(v)
    ensures NoUnwind in r <==> decl.Some? && decl.value.noThrow
    ensures NoReturn in r <==> decl.Some? && decl.value.noReturn
  {
    if v.returnInfo.Indirect? || HasByValArg(v) then DeclFunctionAttrs(decl) - {ReadOnly, ReadNone}
    else DeclFunctionAttrs(decl)
  }

  /**
   * The entries for the return value: sret and noalias on the first
   * parameter for an Indirect return, sign or zero extension on the return
   * for a Direct promotable integer, and nothing otherwise.
   */
  function ReturnEntries(v: FnView): (r: seq<AttrEntry>)
    ensures v.returnInfo.Indirect? ==> r == [AttrEntry(ParamIndex(1), {StructRet, NoAlias})]
    ensures v.returnInfo.Direct? && IsPromotableInteger(v.returnType) ==>
      r == [AttrEntry(ReturnIndex, if IsSignedInteger(v.returnType) then {SExt} else {ZExt})]
    ensures !v.returnInfo.Indirect? && !(v.returnInfo.Direct? && IsPromotableInteger(v.returnType)) ==> r == []
  {
    (if v.returnInfo.Indirect? then [AttrEntry(ParamIndex(1), {StructRet, NoAlias})] else []) +
    (if v.returnInfo.Direct? && ExtensionAttrs(v.returnType) != {} then [AttrEntry(ReturnIndex, ExtensionAttrs(v.returnType))] else [])
  }

  /** The entry for argument i, on its own physical parameter, when it has attributes. */
  function ArgEntries(v: FnView, i: nat): seq<AttrEntry>
    requires Lowerable(v) && i < |v.params|
  {
    if ArgAttrs(v.params[i]) == {} then []
    else [AttrEntry(ParamIndex(ArgSlotStart(v, i) + 1), ArgAttrs(v.params[i]))]
  }

  function ArgEntriesUpTo(v: FnView, n: nat): seq<AttrEntry>
    requires Lowerable(v) && n <= |v.params|
  {
    if n == 0 then [] else ArgEntriesUpTo(v, n - 1) + ArgEntries(v, n - 1)
  }

  /** The whole attribute list: return entries, argument entries in order, then the function entry. */
  function AttributeList(v: FnView, decl: Option<DeclAttrs>): seq<AttrEntry>
    requires Lowerable(v)
  {
    var f := FunctionAttrs(v, decl);
    ReturnEntries(v) + ArgEntriesUpTo(v, |v.params|) + (if f != {} then [AttrEntry(FunctionIndex, f)] else [])
  }

  /** Whether memory is written through the sret pointer or an Indirect argument among the first k. */
  predicate WritesMemoryBefore(v: FnView, k: nat)
  {
    v.returnInfo.Indirect? || exists j :: 0 <= j < k && j < |v.params| && v.params[j].info.Indirect?
  }

  /**
   * One turn of the argument loop: the entries argument k contributes, the
   * parameter index after it, and the function attributes after it.
   */
  method AttributeStep(v: FnView, decl: Option<DeclAttrs>, k: nat, index: nat, funcAttrs: set<Attr>)
      returns (entries: seq<AttrEntry>, index': nat, funcAttrs': set<Attr>)
    requires Lowerable(v) && k < |v.params|
    requires index == ArgSlotStart(v, k) + 1
    requires funcAttrs == if WritesMemoryBefore(v, k) then DeclFunctionAttrs(decl) - {ReadOnly, ReadNone} else DeclFunctionAttrs(decl)
    ensures entries == ArgEntries(v, k)
    ensures index' == ArgSlotStart(v, k + 1) + 1
    ensures funcAttrs' == if WritesMemoryBefore(v, k + 1) then DeclFunctionAttrs(decl) - {ReadOnly, ReadNone} else DeclFunctionAttrs(decl)
  {
    var p := v.params[k];
    SlotsBelongToTheirArgument(v, k);
    assert WritesMemoryBefore(v, k + 1) <==> WritesMemoryBefore(v, k) || p.info.Indirect?;
    var attributes: set<Attr> := {};
    entries := [];
    index', funcAttrs' := index, funcAttrs;
    match p.info {
      case Coerce(_) =>
      case Indirect(a) =>
        attributes := {ByVal} + (if a != 0 then {Alignment(a)} else {});
        funcAttrs' := funcAttrs - {ReadOnly, ReadNone};
      case Direct =>
        attributes := ExtensionAttrs(p.ty);
      case Ignore =>
        return;
      case Expand =>
        var tys := GetExpandedTypes(p.ty, []);
        index' := index + |tys|;
        return;
    }
    if attributes != {} {
      entries := [AttrEntry(ParamIndex(index), attributes)];
    }
    index' := index + 1;
  }

  /** The return value's share: the sret entry and the return's extension, the first argument's index, and the function attributes so far. */
  method ReturnAttributes(v: FnView, decl: Option<DeclAttrs>) returns (pal: seq<AttrEntry>, index: nat, funcAttrs: set<Attr>)
    requires Lowerable(v)
    ensures pal == ReturnEntries(v)
    ensures index == ArgSlotStart(v, 0) + 1
    ensures funcAttrs == if WritesMemoryBefore(v, 0) then DeclFunctionAttrs(decl) - {ReadOnly, ReadNone} else DeclFunctionAttrs(decl)
  {
    funcAttrs := DeclFunctionAttrs(decl);
    var retAttrs: set<Attr> := {};
    pal := [];
    index := 1;
    SretSlotIsFirst(v);
    match v.returnInfo {
      case Direct =>
        retAttrs := ExtensionAttrs(v.returnType);
      case Indirect(_) =>
        pal := pal + [AttrEntry(ParamIndex(index), {StructRet, NoAlias})];
        index := index + 1;
        funcAttrs := funcAttrs - {ReadOnly, ReadNone};
      case Ignore =>
      case Coerce(_) =>
      case Expand =>
    }
    if retAttrs != {} {
      pal := pal + [AttrEntry(ReturnIndex, retAttrs)];
    }
  }

  /**
   * ConstructAttributeList: walks the arguments with a running parameter
   * index that skips ignored arguments and advances by the number of
   * members of an expanded one.
   */
  method ConstructAttributeList(v: FnView, decl: Option<DeclAttrs>) returns (pal: seq<AttrEntry>)
    requires Lowerable(v)
    ensures pal == AttributeList(v, decl)
  {
    var index, funcAttrs;
    pal, index, funcAttrs := ReturnAttributes(v, decl);
    var k := 0;
    while k < |v.params|
      invariant 0 <= k <= |v.params|
      invariant index == ArgSlotStart(v, k) + 1
      invariant pal == ReturnEntries(v) + ArgEntriesUpTo(v, k)
      invariant funcAttrs == if WritesMemoryBefore(v, k) then DeclFunctionAttrs(decl) - {ReadOnly, ReadNone} else DeclFunctionAttrs(decl)
    {
      var entries;
      entries, index, funcAttrs := AttributeStep(v, decl, k, index, funcAttrs);
      pal := pal + entries;
      k := k + 1;
    }
    assert WritesMemoryBefore(v, |v.params|) <==> v.returnInfo.Indirect? || HasByValArg(v);
    assert funcAttrs == FunctionAttrs(v, decl);
    if funcAttrs != {} {
      pal := pal + [AttrEntry(FunctionIndex, funcAttrs)];
    }
  }

  /**
   * Every argument entry sits on a parameter its own argument owns, and
   * the sret entry on the hidden return pointer.
   */
  lemma {:induction false} EntriesLandOnTheirParameters(v: FnView, i: nat)
    requires Lowerable(v) && i < |v.params| && ArgEntries(v, i) != []
    ensures var n := ArgEntries(v, i)[0].index.n;
      1 <= n <= |ParamSlots(v)| && ParamSlots(v)[n - 1].owner == ArgSlot(i)
  {
    SlotsBelongToTheirArgument(v, i);
  }

  /** The entries of argument i are among those of the first n arguments once i < n. */
  lemma {:induction false} ArgEntriesUpToContains(v: FnView, n: nat, i: nat)
    requires Lowerable(v) && i < n <= |v.params|
    ensures forall e :: e in ArgEntries(v, i) ==> e in ArgEntriesUpTo(v, n)
    decreases n
  {
    if i < n - 1 {
      ArgEntriesUpToContains(v, n - 1, i);
    }
  }

  /**
   * A promotable integer argument passed Direct gets exactly one entry, sext
   * when it is signed and zext otherwise, on its own physical parameter, and
   * that entry is in the function's attribute list.
   */
  lemma {:induction false} PromotableArgumentExtended(v: FnView, decl: Option<DeclAttrs>, i: nat)
    requires Lowerable(v) && i < |v.params| && v.params[i].info.Direct? && IsPromotableInteger(v.params[i].ty)
    ensures var e := AttrEntry(ParamIndex(ArgSlotStart(v, i) + 1), if IsSignedInteger(v.params[i].ty) then {SExt} else {ZExt});
      ArgEntries(v, i) == [e] && e in AttributeList(v, decl)
  {
    ArgEntriesUpToContains(v, |v.params|, i);
  }

  /** A promotable integer returned Direct puts sext (signed) or zext (otherwise) on the return in the attribute list. */
  lemma PromotableReturnExtended(v: FnView, decl: Option<DeclAttrs>)
    requires Lowerable(v) && v.returnInfo.Direct? && IsPromotableInteger(v.returnType)
    ensures AttrEntry(ReturnIndex, if IsSignedInteger(v.returnType) then {SExt} else {ZExt}) in AttributeList(v, decl)
  {
  }

  lemma SretEntryOnHiddenPointer(v: FnView)
    requires Lowerable(v) && v.returnInfo.Indirect?
    ensures ReturnEntries(v)[0] == AttrEntry(ParamIndex(1), {StructRet, NoAlias})
    ensures |ParamSlots(v)| > 0 && ParamSlots(v)[0].owner == SretSlot
  {
    SretSlotIsFirst(v);
  }
}
