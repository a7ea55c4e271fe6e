/**
 * The semantic types that reach the calling-convention layer, the physical
 * (lowered) types it produces, and the per-value disposition.
 *
 * Sizes, alignments and field offsets are given in BITS, as the layout
 * collaborator reports them; they are inputs of the model, not computed here.
 */
module Types {

  datatype Option<+T> = None | Some(value: T)

  /** Integer ranks of the front end's builtin integer kinds. */
  datatype IntRank = Char | Short | Int | Long | LongLong | WChar

  datatype BuiltinKind =
    | Void
    | Bool
    | IntKind(signed: bool, rank: IntRank)
    | Float
    | Double
    | LongDouble
    | OtherBuiltin   // placeholder kinds (overload, dependent, ...) that no rule names

  datatype Type =
    | Builtin(kind: BuiltinKind, bits: nat, alignBits: nat)
    | Pointer(bits: nat, alignBits: nat)
    | Enum(underlying: Type)
    | Vector(elem: Type, bits: nat, alignBits: nat)
    | Complex(elem: Type)
    | ConstArray(elem: Type, count: nat)
    | Record(isUnion: bool, fields: seq<Field>, bits: nat, alignBits: nat, hasFlexibleArray: bool)

  /** A record member: its type, its bit offset inside the record, and its bit-field width if any. */
  datatype Field = Field(ty: Type, offset: nat, isBitField: bool, width: nat)

  function Size(t: Type): nat
  {
    match t
    case Builtin(_, bits, _) => bits
    case Pointer(bits, _) => bits
    case Enum(u) => Size(u)
    case Vector(_, bits, _) => bits
    case Complex(e) => 2 * Size(e)
    case ConstArray(e, n) => n * Size(e)
    case Record(_, _, bits, _, _) => bits
  }

  function Align(t: Type): nat
  {
    match t
    case Builtin(_, _, a) => a
    case Pointer(_, a) => a
    case Enum(u) => Align(u)
    case Vector(_, _, a) => a
    case Complex(e) => Align(e)
    case ConstArray(e, _) => Align(e)
    case Record(_, _, _, a, _) => a
  }

  predicate IsBuiltinKind(t: Type, k: BuiltinKind) { t.Builtin? && t.kind == k }

  predicate IsVoid(t: Type) { IsBuiltinKind(t, Void) }

  /** Builtin integer kinds: bool up to long long, signed or not. */
  predicate IsBuiltinInteger(t: Type) { t.Builtin? && (t.kind.Bool? || t.kind.IntKind?) }

  /** Integral types: builtin integers and enumerations. */
  predicate IsIntegral(t: Type) { IsBuiltinInteger(t) || t.Enum? }

  /** Types that live in memory as aggregates: records, complex numbers and arrays. */
  predicate IsAggregate(t: Type) { t.Record? || t.Complex? || t.ConstArray? }

  /** A record that is a struct (not a union). */
  predicate IsStruct(t: Type) { t.Record? && !t.isUnion }

  predicate IsPromotableInteger(t: Type)
  {
    t.Builtin? && (t.kind.Bool? || (t.kind.IntKind? && (t.kind.rank.Char? || t.kind.rank.Short?)))
  }

  predicate IsSignedInteger(t: Type) { t.Builtin? && t.kind.IntKind? && t.kind.signed }

  predicate IsUnsignedInteger(t: Type)
  {
    t.Builtin? && (t.kind.Bool? || (t.kind.IntKind? && !t.kind.signed))
  }

  /**
   * What the layout collaborator guarantees: every alignment is positive,
   * every member lies inside its record, a long double is wider than one
   * eightbyte, and an enumeration sits on a builtin integer type.
   */
  predicate WellFormed(t: Type)
  {
    match t
    case Builtin(k, bits, a) => a >= 1 && (k.LongDouble? ==> bits > 64)
    case Pointer(_, a) => a >= 1
    case Enum(u) => IsBuiltinInteger(u) && WellFormed(u)
    case Vector(e, _, a) => a >= 1 && WellFormed(e)
    case Complex(e) => WellFormed(e)
    case ConstArray(e, _) => WellFormed(e)
    case Record(_, fields, bits, a, _) =>
      a >= 1 && forall i :: 0 <= i < |fields| ==> FieldFits(fields[i], bits) && WellFormed(fields[i].ty)
  }

  predicate AllWellFormed(ts: seq<Type>)
  {
    forall i :: 0 <= i < |ts| ==> WellFormed(ts[i])
  }

  predicate FieldFits(f: Field, recordBits: nat)
  {
    if f.isBitField then f.offset + f.width <= recordBits
    else f.offset + Size(f.ty) <= recordBits
  }

  /** Physical (lowered) types handed to the code emitter. */
  datatype LType =
    | VoidTy
    | IntTy(bits: nat)
    | FloatTy
    | DoubleTy
    | X86FP80Ty
    | PtrTo(pointee: LType)
    | StructTy(elems: seq<LType>)
    | PackedStructTy(elems: seq<LType>)
    | VecTy(elem: LType, n: nat)
    | ArrayTy(elem: LType, n: nat)
    | Converted(t: Type)         // the type-lowering collaborator's image of t
    | ConvertedForMem(t: Type)   // its in-memory image of t

  /** How one value crosses the call boundary. */
  datatype ABIArgInfo =
    | Direct
    | Indirect(align: nat)
    | Ignore
    | Expand
    | Coerce(ty: LType)
}
