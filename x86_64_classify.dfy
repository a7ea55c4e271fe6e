/**
 * The x86-64 eightbyte classification of section 3.2.3 of the System V AMD64
 * psABI: every type is classified at a bit offset into a pair of classes,
 * one for the low eightbyte (bits 0..63) and one for the high (64..127).
 */
module X86_64Classify {
  import opened Types

  datatype Class = Integer | SSE | SSEUp | X87 | X87Up | ComplexX87 | NoClass | Memory

  datatype Classes = Classes(lo: Class, hi: Class)

  predicate IsX87Family(c: Class) { c == X87 || c == X87Up || c == ComplexX87 }

  /**
   * Rule 4 of the classification: the class of an eightbyte holding two
   * fields. The accumulated class is never Memory (the scan stops first) nor
   * ComplexX87 (no complex long double fits in a 16-byte aggregate).
   * Rule (e) applies to either operand, so merging does not depend on the
   * order of the fields.
   */
  function Merge(accum: Class, field: Class): (r: Class)
    requires accum != Memory && accum != ComplexX87
    ensures r == accum || r == field || r == Memory || r == Integer || r == SSE
    ensures field == NoClass ==> r == accum
    ensures accum == NoClass ==> r == field
    ensures field == Memory ==> r == Memory
    ensures field != Memory && (accum == Integer || field == Integer) ==> r == Integer
    ensures r == Memory ==> field == Memory || (accum != field && (IsX87Family(accum) || IsX87Family(field)))
    ensures accum == field ==> r == accum
    ensures (accum != field && accum !in {NoClass, Integer} && field !in {NoClass, Integer, Memory} &&
             (IsX87Family(accum) || IsX87Family(field))) ==> r == Memory
    ensures (accum != field && accum !in {NoClass, Integer} && field !in {NoClass, Integer, Memory} &&
             !IsX87Family(accum) && !IsX87Family(field)) ==> r == SSE
  {
    if accum == field || field == NoClass then accum
    else if field == Memory then Memory
    else if accum == NoClass then field
    else if accum == Integer || field == Integer then Integer
    else if IsX87Family(field) || IsX87Family(accum) then Memory
    else SSE
  }

  /** Merging is commutative wherever both orders are defined. */
  lemma MergeCommutes(a: Class, b: Class)
    requires a != Memory && a != ComplexX87 && b != Memory && b != ComplexX87
    ensures Merge(a, b) == Merge(b, a)
  {
  }

  /** merge exactly as the source writes it: rule (e) looks at the field's class only. */
  function MergeAsWritten(accum: Class, field: Class): (r: Class)
    requires accum != Memory && accum != ComplexX87
    ensures r == accum || r == field || r == Memory || r == Integer || r == SSE
    ensures field == NoClass || accum == field ==> r == accum
    ensures accum == NoClass ==> r == field
    ensures field != Memory && (accum == Integer || field == Integer) ==> r == Integer
    ensures r == Memory <==> field == Memory || (IsX87Family(field) && accum != field && accum !in {NoClass, Integer})
    ensures (accum != field && accum !in {NoClass, Integer} && field !in {NoClass, Integer, Memory} &&
             !IsX87Family(field)) ==> r == SSE
  {
    if accum == field || field == NoClass then accum
    else if field == Memory then Memory
    else if accum == NoClass then field
    else if accum == Integer || field == Integer then Integer
    else if IsX87Family(field) then Memory
    else SSE
  }

  /**
   * The written merge depends on field order: a long double followed by a
   * float in the same eightbyte yields SSE, the reverse order yields Memory.
   * The corrected Merge yields Memory both ways.
   */
  lemma MergeAsWrittenIsOrderDependent()
    ensures MergeAsWritten(X87, SSE) == SSE
    ensures MergeAsWritten(SSE, X87) == Memory
    ensures Merge(X87, SSE) == Memory && Merge(SSE, X87) == Memory
  {
  }

  /** The two merges agree unless the accumulated class is X87 or X87Up. */
  lemma MergeAgreesAwayFromX87(a: Class, b: Class)
    requires a != Memory && a != ComplexX87 && a != X87 && a != X87Up
    ensures Merge(a, b) == MergeAsWritten(a, b)
  {
  }

  /** Whether bit b is one of the bits [offset, offset + width). */
  predicate Occupies(offset: nat, width: nat, b: nat) { offset <= b < offset + width }

  /** Whether the bit range [offset, offset + width) has a bit in eightbyte k. */
  ghost predicate Meets(offset: nat, width: nat, k: nat)
  {
    exists b: nat :: Occupies(offset, width, b) && b / 64 == k
  }

  lemma {:induction false} MeetsIff(offset: nat, width: nat, k: nat)
    ensures Meets(offset, width, k) <==> width > 0 && offset < 64 * (k + 1) && 64 * k < offset + width
  {
    if width > 0 && offset < 64 * (k + 1) && 64 * k < offset + width {
      var b: nat := if offset < 64 * k then 64 * k else offset;
      assert Occupies(offset, width, b) && b / 64 == k;
    }
    if Meets(offset, width, k) {
      var b: nat :| Occupies(offset, width, b) && b / 64 == k;
      assert 64 * k <= b < 64 * (k + 1);
    }
  }

  /**
   * Classes of a bit-field occupying [offset, offset + width): an eightbyte is
   * Integer exactly when some bit of the field lies in it. A zero-width
   * bit-field occupies nothing.
   */
  function BitFieldClasses(offset: nat, width: nat): (r: Classes)
    ensures r.lo == Integer <==> Meets(offset, width, 0)
    ensures r.hi == Integer <==> Meets(offset, width, 1)
    ensures r.lo in {Integer, NoClass} && r.hi in {Integer, NoClass}
  {
    MeetsIff(offset, width, 0);
    MeetsIff(offset, width, 1);
    Classes(if width > 0 && offset < 64 then Integer else NoClass,
            if width > 0 && offset < 128 && offset + width > 64 then Integer else NoClass)
  }

  const TwoTo64: nat := 0x1_0000_0000_0000_0000

  /**
   * The bit-field rule as written: eightbyte indices computed in 64-bit
   * unsigned arithmetic, (offset + width - 1) / 64 wrapping for a zero width.
   * None is the case where the "type > 16 bytes" assertion fails.
   */
  function BitFieldClassesAsWritten(offset: nat, width: nat): (r: Option<Classes>)
    requires offset + width < TwoTo64
    ensures r.None? <==> offset / 64 != 0 && ((offset + width - 1) % TwoTo64) / 64 != offset / 64
  {
    var ebLo := offset / 64;
    var ebHi := ((offset + width - 1) % TwoTo64) / 64;
    if ebLo != 0 then
      if ebHi != ebLo then None else Some(Classes(NoClass, Integer))
    else
      Some(Classes(Integer, if ebHi != 0 then Integer else NoClass))
  }

  /** For a non-empty bit-field inside the first 16 bytes, the two rules agree. */
  lemma BitFieldRulesAgree(offset: nat, width: nat)
    requires width > 0 && offset + width <= 128
    ensures BitFieldClassesAsWritten(offset, width) == Some(BitFieldClasses(offset, width))
  {
  }

  /**
   * As written, a zero-width bit-field inside the first 16 bytes always
   * claims an eightbyte as Integer: both at offset 0, where the end index
   * wraps, and the one it starts in elsewhere; at offset 64 the assertion
   * fails. The corrected rule gives NoClass for both eightbytes.
   */
  lemma ZeroWidthBitFieldAsWritten(offset: nat)
    requires offset < 128
    ensures BitFieldClasses(offset, 0) == Classes(NoClass, NoClass)
    ensures offset == 0 ==> BitFieldClassesAsWritten(offset, 0) == Some(Classes(Integer, Integer))
    ensures 0 < offset < 64 ==> BitFieldClassesAsWritten(offset, 0) == Some(Classes(Integer, NoClass))
    ensures offset == 64 ==> BitFieldClassesAsWritten(offset, 0).None?
    ensures 64 < offset ==> BitFieldClassesAsWritten(offset, 0) == Some(Classes(NoClass, Integer))
  {
  }

  /** The rules a classification merges and classifies bit-fields with: the psABI's, or the source's as written. */
  datatype Rules = Corrected | AsWritten

  /** The merge of the chosen rules. */
  function MergeBy(rules: Rules, accum: Class, field: Class): (r: Class)
    requires accum != Memory && accum != ComplexX87
    ensures r == accum || r == field || r == Memory || r == Integer || r == SSE
    ensures field == NoClass ==> r == accum
    ensures accum == NoClass ==> r == field
    ensures field == Memory ==> r == Memory
    ensures field != Memory && (accum == Integer || field == Integer) ==> r == Integer
    ensures r == Memory ==> field == Memory || (accum != field && (IsX87Family(accum) || IsX87Family(field)))
  {
    if rules.Corrected? then Merge(accum, field) else MergeAsWritten(accum, field)
  }

  /**
   * The bit-field rule of the chosen rules. Where the written rule's
   * assertion fails, a build without assertions goes on to claim the high
   * eightbyte only.
   */
  function BitFieldBy(rules: Rules, offset: nat, width: nat): (r: Classes)
    requires offset + width <= 128
    ensures r.lo in {Integer, NoClass} && r.hi in {Integer, NoClass}
  {
    if rules.Corrected? then BitFieldClasses(offset, width)
    else
      match BitFieldClassesAsWritten(offset, width)
      case Some(c) => c
      case None => Classes(NoClass, Integer)
  }

  /** The class pair with c in the eightbyte the offset falls in and NoClass in the other. */
  function Current(offset: nat, c: Class): Classes
  {
    if offset < 64 then Classes(c, NoClass) else Classes(NoClass, c)
  }

  /** Classes a partial merge may hold: nothing that stops the scan or that no aggregate can contain. */
  predicate Accumulable(acc: Classes)
  {
    acc.lo !in {Memory, ComplexX87, SSEUp, X87Up} && acc.hi !in {Memory, ComplexX87, X87}
  }

  lemma AlignPositive(t: Type)
    requires WellFormed(t)
    ensures Align(t) >= 1
  {
  }

  lemma MulLe(a: nat, b: nat, c: nat)
    requires a <= b
    ensures a * c <= b * c
  {
  }

  /** In an array of at most 16 bytes whose element is at least 16 bytes, there is one element. */
  lemma {:induction false} WideElement(i: nat, n: nat, es: nat)
    requires i < n && n * es <= 128
    ensures es >= 128 ==> i == 0 && n == 1
  {
    if n >= 2 && es >= 128 {
      MulLe(2, n, es);
    }
  }

  /** The classification the rest of the model uses: the psABI's merge and bit-field rules. */
  function Classify(t: Type, offset: nat): Classes
    requires WellFormed(t) && (offset == 0 || offset + Size(t) <= 128)
  {
    ClassifyBy(Corrected, t, offset)
  }

  /** The classification exactly as the source computes it. */
  function ClassifyAsWritten(t: Type, offset: nat): Classes
    requires WellFormed(t) && (offset == 0 || offset + Size(t) <= 128)
  {
    ClassifyBy(AsWritten, t, offset)
  }

  /**
   * classify: the classes of type t placed at bit offset `offset` of an
   * argument. The offset is 0 at the top level and inside a 16-byte
   * aggregate otherwise.
   */
  function ClassifyBy(rules: Rules, t: Type, offset: nat): (c: Classes)
    requires WellFormed(t) && (offset == 0 || offset + Size(t) <= 128)
    ensures c.lo != SSEUp && c.lo != X87Up && c.hi != X87
    ensures (c.lo == ComplexX87) == (c.hi == ComplexX87)
    ensures c.lo == ComplexX87 ==> Size(t) > 128
    ensures c.hi == SSEUp ==> (c.lo == SSE || c.lo == Memory) && Size(t) >= 128
    ensures offset < 64 && c.hi == Memory ==> c.lo == Memory
    decreases t, 2
  {
    match t
    case Builtin(k, _, _) =>
      if k.Void? then Classes(NoClass, NoClass)
      else if k.Bool? || k.IntKind? then Current(offset, Integer)
      else if k.Float? || k.Double? then Current(offset, SSE)
      else if k.LongDouble? then Classes(X87, X87Up)
      else Current(offset, Memory)
    case Enum(u) => ClassifyBy(rules, u, offset)
    case Pointer(_, _) => Current(offset, Integer)
    case Vector(e, bits, _) =>
      if bits == 32 then
        var c := Current(offset, Integer);
        if offset / 64 != (offset + 31) / 64 then Classes(c.lo, c.lo) else c
      else if bits == 64 then
        if IsBuiltinKind(e, Double) then Current(offset, Memory)
        else
          var c := Current(offset, if IsBuiltinKind(e, IntKind(true, LongLong)) then Integer else SSE);
          if offset != 0 && offset != 64 then Classes(c.lo, c.lo) else c
      else if bits == 128 then Classes(SSE, SSEUp)
      else Current(offset, Memory)
    case Complex(e) =>
      assert WellFormed(e) && Size(t) == 2 * Size(e);
      assert IsBuiltinKind(e, LongDouble) ==> Size(e) > 64;
      var c :=
        if IsIntegral(e) then
          (if Size(t) <= 64 then Current(offset, Integer)
           else if Size(t) <= 128 then Classes(Integer, Integer)
           else Current(offset, Memory))
        else if IsBuiltinKind(e, Float) then Current(offset, SSE)
        else if IsBuiltinKind(e, Double) then Classes(SSE, SSE)
        else if IsBuiltinKind(e, LongDouble) then Current(offset, ComplexX87)
        else Current(offset, Memory);
      if c.hi == NoClass && offset / 64 != (offset + Size(e)) / 64 then Classes(c.lo, c.lo) else c
    case ConstArray(e, n) =>
      AlignPositive(e);
      if Size(t) > 128 || offset % Align(e) != 0 then Current(offset, Memory)
      else
        var c := FoldElems(rules, t, offset, 0, Classes(NoClass, NoClass));
        if c.hi == Memory then Classes(Memory, c.hi) else c
    case Record(_, _, _, _, _) =>
      if Size(t) > 128 || t.hasFlexibleArray then Current(offset, Memory)
      else
        var s := FoldFields(rules, t, offset, 0, Classes(NoClass, NoClass));
        if s.misaligned then s.c else PostMerge(s.c)
  }

  /** Rule 5: Memory in the high eightbyte makes the whole value Memory; SSEUp not after SSE becomes SSE. */
  function PostMerge(c: Classes): (r: Classes)
    ensures r.hi == Memory ==> r.lo == Memory
    ensures r.hi == SSEUp ==> r.lo == SSE
    ensures r.lo == c.lo || r.lo == Memory
    ensures r.hi == c.hi || (c.hi == SSEUp && r.hi == SSE)
  {
    var lo := if c.hi == Memory then Memory else c.lo;
    if c.hi == SSEUp && lo != SSE then Classes(lo, SSE) else Classes(lo, c.hi)
  }

  /** The state of a record scan: the classes so far and whether a misaligned member ended it. */
  datatype Scan = Scan(c: Classes, misaligned: bool)

  /** The member loop of the record case, from member i on, with `acc` merged so far. */
  function FoldFields(rules: Rules, t: Type, offset: nat, i: nat, acc: Classes): (s: Scan)
    requires t.Record? && WellFormed(t) && i <= |t.fields| && offset + Size(t) <= 128
    requires Accumulable(acc) && (acc.hi == SSEUp ==> Size(t) >= 128)
    ensures s.misaligned ==> s.c.lo == Memory && s.c.hi !in {Memory, ComplexX87, X87}
    ensures !s.misaligned ==> s.c.lo !in {SSEUp, X87Up, ComplexX87} && s.c.hi !in {ComplexX87, X87}
    ensures s.c.hi == SSEUp ==> Size(t) >= 128
    decreases t, 1, |t.fields| - i
  {
    if i == |t.fields| then Scan(acc, false)
    else
      var f := t.fields[i];
      var o := offset + f.offset;
      AlignPositive(f.ty);
      if !f.isBitField && o % Align(f.ty) != 0 then Scan(Classes(Memory, acc.hi), true)
      else
        var fc := if f.isBitField then BitFieldBy(rules, o, f.width) else ClassifyBy(rules, f.ty, o);
        var m := Classes(MergeBy(rules, acc.lo, fc.lo), MergeBy(rules, acc.hi, fc.hi));
        if m.lo == Memory || m.hi == Memory then Scan(m, false)
        else FoldFields(rules, t, offset, i + 1, m)
  }

  /** Element i of an array lies inside the first 16 bytes, as its array does. */
  lemma ElemInside(t: Type, offset: nat, i: nat)
    requires t.ConstArray? && i < t.count && offset + Size(t) <= 128
    ensures offset + i * Size(t.elem) + Size(t.elem) <= 128
  {
    MulLe(i + 1, t.count, Size(t.elem));
  }

  /** The element loop of the array case, from element i on, with `acc` merged so far. */
  function FoldElems(rules: Rules, t: Type, offset: nat, i: nat, acc: Classes): (c: Classes)
    requires t.ConstArray? && WellFormed(t) && i <= t.count && offset + Size(t) <= 128
    requires Accumulable(acc) && (i == 0 ==> acc == Classes(NoClass, NoClass))
    requires acc.hi == SSEUp ==> acc.lo == SSE && Size(t) >= 128 && i == t.count
    ensures c.lo !in {SSEUp, X87Up, ComplexX87} && c.hi !in {ComplexX87, X87}
    ensures c.hi == SSEUp ==> (c.lo == SSE || c.lo == Memory) && Size(t) >= 128
    decreases t, 1, t.count - i
  {
    if i == t.count then acc
    else
      var es := Size(t.elem);
      ElemInside(t, offset, i);
      var fc := ClassifyBy(rules, t.elem, offset + i * es);
      var m := Classes(MergeBy(rules, acc.lo, fc.lo), MergeBy(rules, acc.hi, fc.hi));
      WideElement(i, t.count, es);
      if m.lo == Memory || m.hi == Memory then m
      else FoldElems(rules, t, offset, i + 1, m)
  }

  /** Neither half is X87 or X87Up: the only accumulated classes on which the two merges differ. */
  predicate X87Free(c: Classes)
  {
    c.lo != X87 && c.lo != X87Up && c.hi != X87 && c.hi != X87Up
  }

  /** Types holding no long double anywhere and no zero-width bit-field. */
  predicate RulesCoincideOn(t: Type)
  {
    match t
    case Builtin(k, _, _) => !k.LongDouble?
    case Pointer(_, _) => true
    case Enum(u) => RulesCoincideOn(u)
    case Vector(_, _, _) => true
    case Complex(e) => RulesCoincideOn(e)
    case ConstArray(e, _) => RulesCoincideOn(e)
    case Record(_, fields, _, _, _) =>
      forall i :: 0 <= i < |fields| ==>
        (fields[i].isBitField ==> fields[i].width > 0) && RulesCoincideOn(fields[i].ty)
  }

  /**
   * Without a long double and without a zero-width bit-field, the source's
   * classification is the psABI's: the two findings are the only places
   * they part.
   */
  lemma {:induction false} ClassifyRulesAgree(t: Type, offset: nat)
    requires WellFormed(t) && (offset == 0 || offset + Size(t) <= 128) && RulesCoincideOn(t)
    ensures ClassifyAsWritten(t, offset) == Classify(t, offset)
    ensures X87Free(Classify(t, offset))
    decreases t, 2
  {
    match t
    case Builtin(_, _, _) =>
    case Enum(u) => ClassifyRulesAgree(u, offset);
    case Pointer(_, _) =>
    case Vector(_, _, _) =>
    case Complex(e) =>
    case ConstArray(e, n) =>
      AlignPositive(e);
      if !(Size(t) > 128 || offset % Align(e) != 0) {
        FoldElemsRulesAgree(t, offset, 0, Classes(NoClass, NoClass));
      }
    case Record(_, _, _, _, _) =>
      if !(Size(t) > 128 || t.hasFlexibleArray) {
        FoldFieldsRulesAgree(t, offset, 0, Classes(NoClass, NoClass));
      }
  }

  lemma {:induction false} FoldFieldsRulesAgree(t: Type, offset: nat, i: nat, acc: Classes)
    requires t.Record? && WellFormed(t) && i <= |t.fields| && offset + Size(t) <= 128
    requires Accumulable(acc) && (acc.hi == SSEUp ==> Size(t) >= 128)
    requires RulesCoincideOn(t) && X87Free(acc)
    ensures FoldFields(AsWritten, t, offset, i, acc) == FoldFields(Corrected, t, offset, i, acc)
    ensures X87Free(FoldFields(Corrected, t, offset, i, acc).c)
    decreases t, 1, |t.fields| - i
  {
    if i < |t.fields| {
      var f := t.fields[i];
      var o := offset + f.offset;
      AlignPositive(f.ty);
      if f.isBitField || o % Align(f.ty) == 0 {
        assert FieldFits(f, Size(t)) && WellFormed(f.ty) && RulesCoincideOn(f.ty);
        if f.isBitField {
          BitFieldRulesAgree(o, f.width);
        } else {
          ClassifyRulesAgree(f.ty, o);
        }
        var fc := if f.isBitField then BitFieldBy(Corrected, o, f.width) else ClassifyBy(Corrected, f.ty, o);
        MergeAgreesAwayFromX87(acc.lo, fc.lo);
        MergeAgreesAwayFromX87(acc.hi, fc.hi);
        var m := Classes(Merge(acc.lo, fc.lo), Merge(acc.hi, fc.hi));
        if !(m.lo == Memory || m.hi == Memory) {
          FoldFieldsRulesAgree(t, offset, i + 1, m);
        }
      }
    }
  }

  lemma {:induction false} FoldElemsRulesAgree(t: Type, offset: nat, i: nat, acc: Classes)
    requires t.ConstArray? && WellFormed(t) && i <= t.count && offset + Size(t) <= 128
    requires Accumulable(acc) && (i == 0 ==> acc == Classes(NoClass, NoClass))
    requires acc.hi == SSEUp ==> acc.lo == SSE && Size(t) >= 128 && i == t.count
    requires RulesCoincideOn(t) && X87Free(acc)
    ensures FoldElems(AsWritten, t, offset, i, acc) == FoldElems(Corrected, t, offset, i, acc)
    ensures X87Free(FoldElems(Corrected, t, offset, i, acc))
    decreases t, 1, t.count - i
  {
    if i < t.count {
      var es := Size(t.elem);
      var o := offset + i * es;
      ElemInside(t, offset, i);
      assert WellFormed(t.elem) && RulesCoincideOn(t.elem);
      ClassifyRulesAgree(t.elem, o);
      var fc := ClassifyBy(Corrected, t.elem, o);
      MergeAgreesAwayFromX87(acc.lo, fc.lo);
      MergeAgreesAwayFromX87(acc.hi, fc.hi);
      var m := Classes(Merge(acc.lo, fc.lo), Merge(acc.hi, fc.hi));
      assert m == Classes(MergeBy(AsWritten, acc.lo, fc.lo), MergeBy(AsWritten, acc.hi, fc.hi));
      assert X87Free(m);
      WideElement(i, t.count, es);
      if !(m.lo == Memory || m.hi == Memory) {
        FoldElemsRulesAgree(t, offset, i + 1, m);
      }
    }
  }

  /**
   * union { long double x; float f; }: as written the float's SSE replaces
   * the long double's X87, giving (SSE, X87Up); the psABI's rule (e) gives
   * Memory for the low eightbyte.
   */
  lemma UnionOfLongDoubleAndFloat()
    ensures var ld := Builtin(LongDouble, 128, 128);
      var f := Builtin(Float, 32, 32);
      var u := Record(true, [Field(ld, 0, false, 0), Field(f, 0, false, 0)], 128, 128, false);
      WellFormed(u) &&
      ClassifyAsWritten(u, 0) == Classes(SSE, X87Up) &&
      Classify(u, 0) == Classes(Memory, X87Up)
  {
    var ld := Builtin(LongDouble, 128, 128);
    var f := Builtin(Float, 32, 32);
    var u := Record(true, [Field(ld, 0, false, 0), Field(f, 0, false, 0)], 128, 128, false);
    var start := Classes(NoClass, NoClass);
    assert ClassifyBy(AsWritten, ld, 0) == Classes(X87, X87Up);
    assert ClassifyBy(AsWritten, f, 0) == Classes(SSE, NoClass);
    assert FoldFields(AsWritten, u, 0, 2, Classes(SSE, X87Up)) == Scan(Classes(SSE, X87Up), false);
    assert FoldFields(AsWritten, u, 0, 1, Classes(X87, X87Up)) == Scan(Classes(SSE, X87Up), false);
    assert FoldFields(AsWritten, u, 0, 0, start) == Scan(Classes(SSE, X87Up), false);
    assert FoldFields(Corrected, u, 0, 1, Classes(X87, X87Up)) == Scan(Classes(Memory, X87Up), false);
    assert FoldFields(Corrected, u, 0, 0, start) == Scan(Classes(Memory, X87Up), false);
  }

  /**
   * struct { float f; int : 0; }: as written the zero-width bit-field at bit
   * 32 claims the low eightbyte as Integer; it occupies no bit, so the
   * psABI leaves the float's SSE.
   */
  lemma FloatThenZeroWidthBitField()
    ensures var f := Builtin(Float, 32, 32);
      var i := Builtin(IntKind(true, Int), 32, 32);
      var s := Record(false, [Field(f, 0, false, 0), Field(i, 32, true, 0)], 32, 32, false);
      WellFormed(s) &&
      ClassifyAsWritten(s, 0) == Classes(Integer, NoClass) &&
      Classify(s, 0) == Classes(SSE, NoClass)
  {
    var f := Builtin(Float, 32, 32);
    var i := Builtin(IntKind(true, Int), 32, 32);
    var s := Record(false, [Field(f, 0, false, 0), Field(i, 32, true, 0)], 32, 32, false);
    var start := Classes(NoClass, NoClass);
    assert ClassifyBy(AsWritten, f, 0) == Classes(SSE, NoClass);
    assert BitFieldBy(AsWritten, 32, 0) == Classes(Integer, NoClass);
    assert BitFieldBy(Corrected, 32, 0) == Classes(NoClass, NoClass);
    assert FoldFields(AsWritten, s, 0, 2, Classes(Integer, NoClass)) == Scan(Classes(Integer, NoClass), false);
    assert FoldFields(AsWritten, s, 0, 1, Classes(SSE, NoClass)) == Scan(Classes(Integer, NoClass), false);
    assert FoldFields(AsWritten, s, 0, 0, start) == Scan(Classes(Integer, NoClass), false);
    assert FoldFields(Corrected, s, 0, 2, Classes(SSE, NoClass)) == Scan(Classes(SSE, NoClass), false);
    assert FoldFields(Corrected, s, 0, 1, Classes(SSE, NoClass)) == Scan(Classes(SSE, NoClass), false);
    assert FoldFields(Corrected, s, 0, 0, start) == Scan(Classes(SSE, NoClass), false);
  }

  /**
   * Rule 1 of the classification: a record with a member that is not a
   * bit-field and does not sit at a multiple of its alignment has a Memory
   * low eightbyte, under either rules.
   */
  lemma {:induction false} MisalignedMemberMakesMemory(rules: Rules, t: Type, j: nat)
    requires WellFormed(t) && t.Record? && j < |t.fields|
    requires !t.fields[j].isBitField && Align(t.fields[j].ty) > 0 && t.fields[j].offset % Align(t.fields[j].ty) != 0
    ensures ClassifyBy(rules, t, 0).lo == Memory
  {
    if !(Size(t) > 128 || t.hasFlexibleArray) {
      ScanStopsBeforeOrAt(rules, t, 0, 0, Classes(NoClass, NoClass), j);
    }
  }

  /** One turn of the member loop over an aligned member or a bit-field: the merged classes m decide whether it goes on. */
  lemma FoldFieldsAdvance(rules: Rules, t: Type, offset: nat, i: nat, acc: Classes) returns (m: Classes)
    requires t.Record? && WellFormed(t) && i < |t.fields| && offset + Size(t) <= 128
    requires Accumulable(acc) && (acc.hi == SSEUp ==> Size(t) >= 128)
    requires t.fields[i].isBitField || (Align(t.fields[i].ty) > 0 && (offset + t.fields[i].offset) % Align(t.fields[i].ty) == 0)
    ensures !(m.lo == Memory || m.hi == Memory) ==> Accumulable(m) && (m.hi == SSEUp ==> Size(t) >= 128)
    ensures m.lo == Memory || m.hi == Memory ==> FoldFields(rules, t, offset, i, acc) == Scan(m, false)
    ensures !(m.lo == Memory || m.hi == Memory) ==> FoldFields(rules, t, offset, i, acc) == FoldFields(rules, t, offset, i + 1, m)
  {
    var f := t.fields[i];
    var o := offset + f.offset;
    assert FieldFits(f, Size(t)) && WellFormed(f.ty);
    AlignPositive(f.ty);
    assert !(!f.isBitField && o % Align(f.ty) != 0);
    var fc := if f.isBitField then BitFieldBy(rules, o, f.width) else ClassifyBy(rules, f.ty, o);
    m := Classes(MergeBy(rules, acc.lo, fc.lo), MergeBy(rules, acc.hi, fc.hi));
  }

  /** The member scan from i on, with a misaligned member j ahead, ends misaligned or with a Memory half. */
  lemma {:induction false} ScanStopsBeforeOrAt(rules: Rules, t: Type, offset: nat, i: nat, acc: Classes, j: nat)
    requires t.Record? && WellFormed(t) && i <= j < |t.fields| && offset + Size(t) <= 128
    requires Accumulable(acc) && (acc.hi == SSEUp ==> Size(t) >= 128)
    requires !t.fields[j].isBitField && Align(t.fields[j].ty) > 0
    requires (offset + t.fields[j].offset) % Align(t.fields[j].ty) != 0
    ensures var s := FoldFields(rules, t, offset, i, acc); s.misaligned || s.c.lo == Memory || s.c.hi == Memory
    decreases j - i
  {
    var f := t.fields[i];
    assert WellFormed(f.ty);
    AlignPositive(f.ty);
    if f.isBitField || (offset + f.offset) % Align(f.ty) == 0 {
      var m := FoldFieldsAdvance(rules, t, offset, i, acc);
      if !(m.lo == Memory || m.hi == Memory) {
        ScanStopsBeforeOrAt(rules, t, offset, i + 1, m, j);
      }
    }
  }
}
