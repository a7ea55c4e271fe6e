/**
 * Values crossing a call, and how a struct passed with the Expand
 * disposition is split into one physical argument per leaf member by the
 * caller and rebuilt from them by the callee.
 */
module StructExpansion {
  import opened Types
  import opened RecordShape
  import opened Coercion

  /** A source value: a scalar, or an aggregate of member values. */
  datatype Value = Scalar(x: int) | Aggregate(members: seq<Value>)

  /**
   * A physical argument: a value in a register (or the address of a copy
   * of it), the bytes of a coerced value, or the hidden return pointer.
   */
  datatype Phys = Val(v: Value) | Bits(bytes: seq<Byte>) | SretPointer

  /** The value has the shape of the type: one member per record member, a scalar for a non-aggregate. */
  predicate Fits(v: Value, t: Type)
    decreases t
  {
    if t.Record? then
      v.Aggregate? && |v.members| == |t.fields| &&
      forall i :: 0 <= i < |t.fields| ==> Fits(v.members[i], t.fields[i].ty)
    else if IsAggregate(t) then v.Aggregate?
    else v.Scalar?
  }

  /** Every physical argument is a scalar register value, as an expanded leaf is. */
  predicate ScalarValues(s: seq<Phys>)
  {
    forall k :: 0 <= k < |s| ==> s[k].Val? && s[k].v.Scalar?
  }

  lemma ScalarValuesWithin(s: seq<Phys>, lo: nat, hi: nat, lo': nat, hi': nat)
    requires lo <= lo' <= hi' <= hi <= |s| && ScalarValues(s[lo..hi])
    ensures ScalarValues(s[lo'..hi'])
  {
    forall k | 0 <= k < hi' - lo'
      ensures s[lo'..hi'][k].Val? && s[lo'..hi'][k].v.Scalar?
    {
      assert s[lo'..hi'][k] == s[lo..hi][k + lo' - lo];
    }
  }

  /** The number of physical arguments the first i members of an expandable struct take. */
  function LeafCount(t: Type, i: nat): nat
    requires Expandable(t) && i <= |t.fields|
    decreases i
  {
    if i == 0 then 0
    else
      ExpandableMembers(t, i - 1);
      var ft := t.fields[i - 1].ty;
      LeafCount(t, i - 1) + Width(ft)
  }

  /** The members before i and the leaves from i on make up all the leaves. */
  lemma {:induction false} LeafCountSplits(t: Type, i: nat)
    requires Expandable(t) && i <= |t.fields|
    ensures ExpandableFrom(t, i) && LeafCount(t, i) + |LeavesFrom(t, i)| == |Leaves(t)|
    decreases i
  {
    if i > 0 {
      LeafCountSplits(t, i - 1);
    }
  }

  /** How many physical arguments a member of type ft takes. */
  function Width(ft: Type): nat
    requires IsAggregate(ft) ==> Expandable(ft)
  {
    if IsAggregate(ft) then |Leaves(ft)| else 1
  }

  /** The physical arguments of one member value m of type ft. */
  function Piece(ft: Type, m: Value): (r: seq<Phys>)
    requires (IsAggregate(ft) ==> Expandable(ft)) && Fits(m, ft)
    ensures |r| == Width(ft) && ScalarValues(r)
    decreases ft, 2
  {
    if IsAggregate(ft) then Expansion(ft, m) else [Val(m)]
  }

  /** The physical arguments of the first i members, given the member values ms. */
  function ExpansionUpTo(t: Type, ms: seq<Value>, i: nat): (r: seq<Phys>)
    requires Expandable(t) && i <= |t.fields| && i <= |ms|
    requires forall j :: 0 <= j < i ==> Fits(ms[j], t.fields[j].ty)
    ensures |r| == LeafCount(t, i) && ScalarValues(r)
    decreases t, 0, i
  {
    if i == 0 then []
    else
      ExpandableMembers(t, i - 1);
      var ft := t.fields[i - 1].ty;
      assert Fits(ms[i - 1], ft);
      ExpansionUpTo(t, ms, i - 1) + Piece(ft, ms[i - 1])
  }

  /**
   * The physical arguments an expanded struct value becomes: its scalar
   * leaves in declaration order, one argument per leaf member of the type.
   */
  function Expansion(t: Type, v: Value): (r: seq<Phys>)
    requires Expandable(t) && Fits(v, t)
    ensures |r| == |Leaves(t)| && ScalarValues(r)
    decreases t, 1
  {
    LeafCountSplits(t, |t.fields|);
    ExpansionUpTo(t, v.members, |t.fields|)
  }

  lemma {:induction false} ExpansionUpToPrefix(t: Type, ms: seq<Value>, ms': seq<Value>, i: nat)
    requires Expandable(t) && i <= |t.fields| && i <= |ms| && i <= |ms'| && ms[..i] == ms'[..i]
    requires forall j :: 0 <= j < i ==> Fits(ms[j], t.fields[j].ty)
    ensures forall j :: 0 <= j < i ==> Fits(ms'[j], t.fields[j].ty)
    ensures ExpansionUpTo(t, ms, i) == ExpansionUpTo(t, ms', i)
    decreases i
  {
    forall j | 0 <= j < i
      ensures ms'[j] == ms[j]
    {
      assert ms[..i][j] == ms'[..i][j];
    }
    if i > 0 {
      assert ms[..i - 1] == ms[..i][..i - 1];
      assert ms'[..i - 1] == ms'[..i][..i - 1];
      ExpansionUpToPrefix(t, ms, ms', i - 1);
    }
  }

  /** Two values of the type with the same expansion are the same value: the callee can rebuild what the caller split. */
  lemma {:induction false} ExpansionInjective(t: Type, v1: Value, v2: Value)
    requires Expandable(t) && Fits(v1, t) && Fits(v2, t) && Expansion(t, v1) == Expansion(t, v2)
    ensures v1 == v2
    decreases t, 1
  {
    ExpansionUpToInjective(t, v1.members, v2.members, |t.fields|);
    assert v1.members == v1.members[..|t.fields|];
    assert v2.members == v2.members[..|t.fields|];
  }

  lemma {:induction false} ExpansionUpToInjective(t: Type, ms1: seq<Value>, ms2: seq<Value>, i: nat)
    requires Expandable(t) && i <= |t.fields| && i <= |ms1| && i <= |ms2|
    requires forall j :: 0 <= j < i ==> Fits(ms1[j], t.fields[j].ty) && Fits(ms2[j], t.fields[j].ty)
    requires ExpansionUpTo(t, ms1, i) == ExpansionUpTo(t, ms2, i)
    ensures ms1[..i] == ms2[..i]
    decreases t, 0, i
  {
    if i > 0 {
      ExpandableMembers(t, i - 1);
      var ft := t.fields[i - 1].ty;
      var a1, a2 := ExpansionUpTo(t, ms1, i - 1), ExpansionUpTo(t, ms2, i - 1);
      var p1, p2 := Piece(ft, ms1[i - 1]), Piece(ft, ms2[i - 1]);
      assert a1 + p1 == a2 + p2;
      assert |a1| == |a2|;
      assert a1 == (a1 + p1)[..|a1|] && a2 == (a2 + p2)[..|a2|];
      assert p1 == (a1 + p1)[|a1|..] && p2 == (a2 + p2)[|a2|..];
      ExpansionUpToInjective(t, ms1, ms2, i - 1);
      if IsAggregate(ft) {
        ExpansionInjective(ft, ms1[i - 1], ms2[i - 1]);
      } else {
        assert p1[0] == p2[0];
      }
      assert ms1[..i] == ms1[..i - 1] + [ms1[i - 1]];
      assert ms2[..i] == ms2[..i - 1] + [ms2[i - 1]];
    }
  }

  /** ExpandTypeToArgs: append the leaf values of an expanded struct, member by member. */
  method ExpandTypeToArgs(t: Type, v: Value, args: seq<Phys>) returns (r: seq<Phys>)
    requires Expandable(t) && Fits(v, t)
    ensures r == args + Expansion(t, v)
    decreases t
  {
    r := args;
    var i := 0;
    while i < |t.fields|
      invariant 0 <= i <= |t.fields|
      invariant r == args + ExpansionUpTo(t, v.members, i)
    {
      ExpandableMembers(t, i);
      var ft := t.fields[i].ty;
      if IsAggregate(ft) {
        r := ExpandTypeToArgs(ft, v.members[i], r);
      } else {
        r := r + [Val(v.members[i])];
      }
      i := i + 1;
    }
  }

  /**
   * ExpandTypeFromArgs: rebuild a struct from the physical arguments
   * starting at cursor, storing each one into the next leaf member, and
   * return the position after the last one used. The value built is the
   * one whose expansion is exactly the arguments consumed.
   */
  method ExpandTypeFromArgs(t: Type, phys: seq<Phys>, cursor: nat) returns (v: Value, next: nat)
    requires Expandable(t) && cursor + |Leaves(t)| <= |phys|
    requires ScalarValues(phys[cursor..cursor + |Leaves(t)|])
    ensures next == cursor + |Leaves(t)|
    ensures Fits(v, t) && Expansion(t, v) == phys[cursor..next]
    decreases t, 1
  {
    var members: seq<Value> := [];
    next := cursor;
    LeafCountSplits(t, 0);
    var i := 0;
    while i < |t.fields|
      invariant 0 <= i <= |t.fields| && |members| == i
      invariant forall j :: 0 <= j < i ==> Fits(members[j], t.fields[j].ty)
      invariant next == cursor + LeafCount(t, i) <= cursor + |Leaves(t)|
      invariant ExpansionUpTo(t, members, i) == phys[cursor..next]
    {
      members, next := RebuildNext(t, phys, cursor, members, i, next);
      i := i + 1;
    }
    v := Aggregate(members);
    LeafCountSplits(t, |t.fields|);
  }

  /** One turn of ExpandTypeFromArgs' loop: member i is rebuilt from the arguments at next. */
  method RebuildNext(t: Type, phys: seq<Phys>, cursor: nat, members: seq<Value>, i: nat, next: nat)
      returns (members': seq<Value>, next': nat)
    requires Expandable(t) && cursor + |Leaves(t)| <= |phys|
    requires ScalarValues(phys[cursor..cursor + |Leaves(t)|])
    requires i < |t.fields| && |members| == i
    requires forall j :: 0 <= j < i ==> Fits(members[j], t.fields[j].ty)
    requires next == cursor + LeafCount(t, i) <= cursor + |Leaves(t)|
    requires ExpansionUpTo(t, members, i) == phys[cursor..next]
    ensures |members'| == i + 1
    ensures forall j :: 0 <= j < i + 1 ==> Fits(members'[j], t.fields[j].ty)
    ensures next' == cursor + LeafCount(t, i + 1) <= cursor + |Leaves(t)|
    ensures ExpansionUpTo(t, members', i + 1) == phys[cursor..next']
    decreases t, 0
  {
    ExpandableMembers(t, i);
    var ft := t.fields[i].ty;
    LeafCountSplits(t, i + 1);
    ScalarValuesWithin(phys, cursor, cursor + |Leaves(t)|, next, next + Width(ft));
    var m;
    m, next' := ExpandMember(ft, phys, next);
    ExpansionUpToPrefix(t, members, members + [m], i);
    assert phys[cursor..next'] == phys[cursor..next] + phys[next..next'];
    members' := members + [m];
  }

  /** One member of ExpandTypeFromArgs: a nested struct is rebuilt recursively, a scalar taken as it is. */
  method ExpandMember(ft: Type, phys: seq<Phys>, next: nat) returns (m: Value, next': nat)
    requires IsAggregate(ft) ==> Expandable(ft)
    requires next + Width(ft) <= |phys| && ScalarValues(phys[next..next + Width(ft)])
    ensures next' == next + Width(ft)
    ensures Fits(m, ft) && Piece(ft, m) == phys[next..next']
    decreases ft, 2
  {
    if IsAggregate(ft) {
      m, next' := ExpandTypeFromArgs(ft, phys, next);
    } else {
      assert phys[next..next + 1][0] == phys[next];
      m := phys[next].v;
      next' := next + 1;
    }
  }
}
