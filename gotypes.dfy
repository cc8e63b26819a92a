/**
 * The part of Go's type system the binder sees through reflection: the
 * kinds of field types it distinguishes, the values such fields hold, and
 * the two parsing capabilities a named type may declare (a method
 * `Set(string) error` and a method `UnmarshalText([]byte) error`).
 */
module GoTypes {
  import opened GoStrconv

  /** Integer widths; `W` is the platform `int`/`uint`, 64 bits wide. */
  datatype IntWidth = W | W8 | W16 | W32 | W64
  {
    function Bits(): (b: nat)
      ensures 8 <= b <= 64
    {
      match this
      case W => 64
      case W8 => 8
      case W16 => 16
      case W32 => 32
      case W64 => 64
    }
  }

  datatype FloatWidth = F32 | F64
  {
    function Bits(): nat { if F32? then 32 else 64 }
  }

  /**
   * A field's static type. `Named` is a defined type (`time.Duration`,
   * `time.Time`, a user's `bracketed`) with the capabilities its method
   * set (value or pointer receivers) provides, over its underlying type.
   * `OtherT` stands for every kind the binder does not convert
   * (arrays, channels, functions, interfaces, complex numbers, uintptr).
   */
  datatype FieldType =
    | StringT
    | IntT(iw: IntWidth)
    | UintT(uw: IntWidth)
    | BoolT
    | FloatT(fw: FloatWidth)
    | SliceT(elem: FieldType)
    | MapT(key: FieldType, val: FieldType)
    | PtrT(target: FieldType)
    | StructT(fields: seq<FieldType>)
    | OtherT(name: string)
    | Named(name: string, hasSet: bool, hasText: bool, under: FieldType)

  /**
   * A field's value. Pointers are modelled by value (what they point to);
   * nil slices, maps and pointers are distinct from empty or allocated ones.
   * A float is held as its IEEE-754 bit pattern.
   */
  datatype Value =
    | StringV(s: string)
    | IntV(i: int)
    | UintV(n: nat)
    | BoolV(b: bool)
    | FloatV(bits: nat)
    | SliceV(elems: seq<Value>)
    | NilSlice
    | MapV(entries: map<Value, Value>)
    | NilMap
    | PtrV(pointee: Value)
    | NilPtr
    | StructV(fieldValues: seq<Value>)
    | OtherV

  /** A measure that decreases from a type to its element types. */
  function Size(t: FieldType): (n: nat)
    ensures n >= 1
  {
    match t
    case SliceT(e) => 1 + Size(e)
    case MapT(k, v) => 1 + Size(k) + Size(v)
    case PtrT(e) => 1 + Size(e)
    case Named(_, _, _, u) => 1 + Size(u)
    case _ => 1
  }

  /** reflect.Kind: a defined type has the kind of its underlying type. */
  function Kind(t: FieldType): (k: FieldType)
    ensures !k.Named? && Size(k) <= Size(t)
  {
    if t.Named? then Kind(t.under) else t
  }

  /** time.Duration, the one integer type parsed with duration syntax. */
  predicate IsDuration(t: FieldType)
  {
    t.Named? && t.name == "time.Duration" && t.under == IntT(W64)
  }

  /**
   * Whether a `Set(string) error` method is reachable from a location of
   * this type: on a defined type (locations are addressable, so pointer
   * receivers count) or through a pointer to one.
   */
  predicate HasSetter(t: FieldType)
  {
    match t
    case Named(_, s, _, _) => s
    case PtrT(Named(_, s, _, _)) => s
    case _ => false
  }

  /** The same for `UnmarshalText([]byte) error`. */
  predicate HasTextUnmarshaler(t: FieldType)
  {
    match t
    case Named(_, _, x, _) => x
    case PtrT(Named(_, _, x, _)) => x
    case _ => false
  }

  predicate InBits(i: int, bits: nat)
    requires bits >= 1
  {
    -(Pow2(bits - 1) as int) <= i < Pow2(bits - 1)
  }

  /** Whether a value is one that a field of type `t` can hold. */
  predicate HasType(v: Value, t: FieldType)
    decreases t
  {
    match t
    case StringT => v.StringV?
    case IntT(w) => v.IntV? && InBits(v.i, w.Bits())
    case UintT(w) => v.UintV? && v.n < Pow2(w.Bits())
    case BoolT => v.BoolV?
    case FloatT(w) => v.FloatV? && v.bits < Pow2(w.Bits())
    case SliceT(e) => v.NilSlice? || (v.SliceV? && forall x :: x in v.elems ==> HasType(x, e))
    case MapT(k, e) =>
      v.NilMap? || (v.MapV? && forall x :: x in v.entries ==> HasType(x, k) && HasType(v.entries[x], e))
    case PtrT(e) => v.NilPtr? || (v.PtrV? && HasType(v.pointee, e))
    case StructT(fs) =>
      v.StructV? && |v.fieldValues| == |fs| && forall i :: 0 <= i < |fs| ==> HasType(v.fieldValues[i], fs[i])
    case OtherT(_) => v.OtherV?
    case Named(_, _, _, u) => HasType(v, u)
  }

  /** A value has a type exactly when it has the type's kind. */
  lemma {:induction false} KindTyped(v: Value, t: FieldType)
    ensures HasType(v, t) <==> HasType(v, Kind(t))
  {
    if t.Named? {
      KindTyped(v, t.under);
    }
  }

  /** The zero value of a type, as reflect.New and reflect.MakeSlice produce it. */
  function Zero(t: FieldType): Value
    decreases t
  {
    match t
    case StringT => StringV("")
    case IntT(_) => IntV(0)
    case UintT(_) => UintV(0)
    case BoolT => BoolV(false)
    case FloatT(_) => FloatV(0)
    case SliceT(_) => NilSlice
    case MapT(_, _) => NilMap
    case PtrT(_) => NilPtr
    case StructT(fs) => StructV(seq(|fs|, i requires 0 <= i < |fs| => Zero(fs[i])))
    case OtherT(_) => OtherV
    case Named(_, _, _, u) => Zero(u)
  }

  /** The zero value of a type is a value of that type. */
  lemma {:induction false} ZeroTyped(t: FieldType)
    ensures HasType(Zero(t), t)
    decreases t
  {
    match t
    case StructT(fs) =>
      forall i | 0 <= i < |fs| ensures HasType(Zero(t).fieldValues[i], fs[i]) {
        ZeroTyped(fs[i]);
      }
    case SliceT(_) =>
    case MapT(_, _) =>
    case PtrT(_) =>
    case Named(_, _, _, u) =>
      ZeroTyped(u);
    case _ =>
  }

  /** reflect.Type.String(), as a ParseError reports it. */
  function TypeString(t: FieldType): string
  {
    match t
    case StringT => "string"
    case IntT(w) => "int" + WidthSuffix(w)
    case UintT(w) => "uint" + WidthSuffix(w)
    case BoolT => "bool"
    case FloatT(w) => if w == F32 then "float32" else "float64"
    case SliceT(e) => "[]" + TypeString(e)
    case MapT(k, e) => "map[" + TypeString(k) + "]" + TypeString(e)
    case PtrT(e) => "*" + TypeString(e)
    case StructT(_) => "struct {...}"
    case OtherT(n) => n
    case Named(n, _, _, _) => n
  }

  function WidthSuffix(w: IntWidth): string
  {
    match w
    case W => ""
    case W8 => "8"
    case W16 => "16"
    case W32 => "32"
    case W64 => "64"
  }
}
