/**
 * Structural queries on records used by several targets: empty structs,
 * single-element structs, "all fields are 32/64-bit basic types", and the
 * flattening of a struct into its leaf fields (for the Expand disposition).
 */
module RecordShape {
  import opened Types

  /** A struct without a flexible array member all of whose members are empty structs. */
  predicate IsEmptyStruct(t: Type)
    decreases t, 1
  {
    IsStruct(t) && !t.hasFlexibleArray && EmptyFrom(t, 0)
  }

  predicate EmptyFrom(t: Type, i: nat)
    requires t.Record? && i <= |t.fields|
    decreases t, 0, |t.fields| - i
  {
    i == |t.fields| || (IsEmptyStruct(t.fields[i].ty) && EmptyFrom(t, i + 1))
  }

  /**
   * The type of the only non-empty member of a struct, looking through nested
   * structs; None when there is no such member, more than one, or a nested
   * aggregate that is not itself a single-element struct.
   */
  function SingleElement(t: Type): Option<Type>
    decreases t, 1
  {
    if !IsStruct(t) || t.hasFlexibleArray then None else SingleElementFrom(t, 0, None)
  }

  function SingleElementFrom(t: Type, i: nat, found: Option<Type>): Option<Type>
    requires t.Record? && i <= |t.fields|
    decreases t, 0, |t.fields| - i
  {
    if i == |t.fields| then found
    else
      var ft := t.fields[i].ty;
      if IsEmptyStruct(ft) then SingleElementFrom(t, i + 1, found)
      else if found.Some? then None
      else if !IsAggregate(ft) then SingleElementFrom(t, i + 1, Some(ft))
      else
        var inner := SingleElement(ft);
        if inner.None? then None else SingleElementFrom(t, i + 1, inner)
  }

  /**
   * Reference definition: the scalar leaves of a struct in declaration order,
   * descending into nested structs (empty ones contribute nothing); None when
   * a nested aggregate is not a struct or has a flexible array member.
   */
  function Flatten(t: Type): Option<seq<Type>>
    decreases t, 1
  {
    if !IsStruct(t) || t.hasFlexibleArray then None else FlattenFrom(t, 0)
  }

  function FlattenFrom(t: Type, i: nat): Option<seq<Type>>
    requires t.Record? && i <= |t.fields|
    decreases t, 0, |t.fields| - i
  {
    if i == |t.fields| then Some([])
    else
      var ft := t.fields[i].ty;
      var head := if !IsAggregate(ft) then Some([ft]) else Flatten(ft);
      var rest := FlattenFrom(t, i + 1);
      if head.None? || rest.None? then None else Some(head.value + rest.value)
  }

  /** Combines the element found so far with the flattening of the remaining members. */
  function Pick(found: Option<Type>, rest: Option<seq<Type>>): Option<Type>
  {
    if rest.None? then None
    else if found.None? then (if |rest.value| == 1 then Some(rest.value[0]) else None)
    else if |rest.value| == 0 then found
    else None
  }

  /** A struct is empty exactly when it flattens to no leaves at all. */
  lemma {:induction false} EmptyIffNoLeaves(t: Type)
    ensures IsEmptyStruct(t) <==> Flatten(t) == Some([])
    decreases t, 1
  {
    if IsStruct(t) && !t.hasFlexibleArray {
      EmptyFromIffNoLeaves(t, 0);
    }
  }

  lemma {:induction false} EmptyFromIffNoLeaves(t: Type, i: nat)
    requires t.Record? && i <= |t.fields|
    ensures EmptyFrom(t, i) <==> FlattenFrom(t, i) == Some([])
    decreases t, 0, |t.fields| - i
  {
    if i < |t.fields| {
      var ft := t.fields[i].ty;
      EmptyIffNoLeaves(ft);
      EmptyFromIffNoLeaves(t, i + 1);
      var head := if !IsAggregate(ft) then Some([ft]) else Flatten(ft);
      var rest := FlattenFrom(t, i + 1);
      assert EmptyFrom(t, i) == (IsEmptyStruct(ft) && EmptyFrom(t, i + 1));
      assert FlattenFrom(t, i) == if head.None? || rest.None? then None else Some(head.value + rest.value);
      assert IsEmptyStruct(ft) <==> head == Some([]);
      if head.Some? && rest.Some? {
        assert head.value + rest.value == [] <==> head.value == [] && rest.value == [];
      }
    }
  }

  /** isSingleElementStruct finds x exactly when the struct's only leaf is x. */
  lemma {:induction false} SingleElementIsOnlyLeaf(t: Type)
    ensures SingleElement(t) == Pick(None, Flatten(t))
    ensures forall x :: SingleElement(t) == Some(x) <==> Flatten(t) == Some([x])
    decreases t, 1
  {
    if IsStruct(t) && !t.hasFlexibleArray {
      SingleElementFromSpec(t, 0, None);
    }
    forall x | SingleElement(t) == Some(x)
      ensures Flatten(t) == Some([x])
    {
      assert Flatten(t).value == [Flatten(t).value[0]];
    }
  }

  lemma {:induction false} SingleElementFromSpec(t: Type, i: nat, found: Option<Type>)
    requires t.Record? && i <= |t.fields|
    ensures SingleElementFrom(t, i, found) == Pick(found, FlattenFrom(t, i))
    decreases t, 0, |t.fields| - i
  {
    if i < |t.fields| {
      var ft := t.fields[i].ty;
      EmptyIffNoLeaves(ft);
      if IsEmptyStruct(ft) {
        SingleElementFromSpec(t, i + 1, found);
      } else if found.Some? {
      } else if !IsAggregate(ft) {
        SingleElementFromSpec(t, i + 1, Some(ft));
      } else {
        SingleElementIsOnlyLeaf(ft);
        var inner := SingleElement(ft);
        if inner.Some? {
          SingleElementFromSpec(t, i + 1, inner);
        }
      }
    }
  }

  /** A builtin or pointer type of exactly 32 or 64 bits. */
  predicate Is32Or64BitBasic(t: Type)
  {
    (t.Builtin? || t.Pointer?) && (Size(t) == 32 || Size(t) == 64)
  }

  /** Every member is a 32/64-bit basic type and none is a bit-field (non-recursive). */
  predicate AllFields32Or64BitBasic(t: Type)
    requires t.Record?
  {
    forall i :: 0 <= i < |t.fields| ==> Is32Or64BitBasic(t.fields[i].ty) && !t.fields[i].isBitField
  }

  /** The records GetExpandedTypes accepts: structs without flexible array or bit-fields, recursively. */
  predicate Expandable(t: Type)
    decreases t, 1
  {
    IsStruct(t) && !t.hasFlexibleArray && ExpandableFrom(t, 0)
  }

  predicate ExpandableFrom(t: Type, i: nat)
    requires t.Record? && i <= |t.fields|
    decreases t, 0, |t.fields| - i
  {
    i == |t.fields| ||
    (!t.fields[i].isBitField
     && (IsAggregate(t.fields[i].ty) ==> Expandable(t.fields[i].ty))
     && ExpandableFrom(t, i + 1))
  }

  /** Every member of an expandable struct is a plain member, and an aggregate member is itself expandable. */
  lemma {:induction false} ExpandableMembers(t: Type, j: nat)
    requires Expandable(t) && j < |t.fields|
    ensures ExpandableFrom(t, j) && !t.fields[j].isBitField
    ensures IsAggregate(t.fields[j].ty) ==> Expandable(t.fields[j].ty)
    decreases j
  {
    if j > 0 {
      ExpandableMembers(t, j - 1);
    }
  }

  /** The non-aggregate leaf members of an expandable struct, in declaration order. */
  function Leaves(t: Type): seq<Type>
    requires Expandable(t)
    decreases t, 1
  {
    LeavesFrom(t, 0)
  }

  function LeavesFrom(t: Type, i: nat): seq<Type>
    requires t.Record? && i <= |t.fields| && ExpandableFrom(t, i)
    decreases t, 0, |t.fields| - i
  {
    if i == |t.fields| then []
    else
      var ft := t.fields[i].ty;
      (if IsAggregate(ft) then Leaves(ft) else [ft]) + LeavesFrom(t, i + 1)
  }

  /** Expanding an expandable struct yields exactly the leaves the reference flattening yields. */
  lemma {:induction false} LeavesAreFlattening(t: Type)
    requires Expandable(t)
    ensures Flatten(t) == Some(Leaves(t))
    decreases t, 1
  {
    LeavesFromAreFlattening(t, 0);
  }

  lemma {:induction false} LeavesFromAreFlattening(t: Type, i: nat)
    requires t.Record? && i <= |t.fields| && ExpandableFrom(t, i)
    ensures FlattenFrom(t, i) == Some(LeavesFrom(t, i))
    decreases t, 0, |t.fields| - i
  {
    if i < |t.fields| {
      var ft := t.fields[i].ty;
      if IsAggregate(ft) {
        LeavesAreFlattening(ft);
      }
      LeavesFromAreFlattening(t, i + 1);
    }
  }

  /**
   * A struct of 32/64-bit basic members only (no bit-fields) is expandable and
   * expands to exactly its members' types, one slot each.
   */
  lemma {:induction false} BasicStructExpandsToFields(t: Type)
    requires IsStruct(t) && !t.hasFlexibleArray && AllFields32Or64BitBasic(t)
    ensures Expandable(t)
    ensures Leaves(t) == seq(|t.fields|, j requires 0 <= j < |t.fields| => t.fields[j].ty)
  {
    BasicFieldsFrom(t, 0);
  }

  lemma {:induction false} BasicFieldsFrom(t: Type, i: nat)
    requires t.Record? && i <= |t.fields| && AllFields32Or64BitBasic(t)
    ensures ExpandableFrom(t, i)
    ensures LeavesFrom(t, i) == seq(|t.fields| - i, j requires 0 <= j < |t.fields| - i => t.fields[i + j].ty)
    decreases |t.fields| - i
  {
    if i < |t.fields| {
      BasicFieldsFrom(t, i + 1);
      var ft := t.fields[i].ty;
      assert Is32Or64BitBasic(ft) && !t.fields[i].isBitField;
      assert !IsAggregate(ft);
      assert ExpandableFrom(t, i);
      var tail := LeavesFrom(t, i + 1);
      assert LeavesFrom(t, i) == [ft] + tail;
      forall j | 0 <= j < |t.fields| - i
        ensures LeavesFrom(t, i)[j] == t.fields[i + j].ty
      {
        if j > 0 {
          assert LeavesFrom(t, i)[j] == tail[j - 1];
        }
      }
    }
  }
}
