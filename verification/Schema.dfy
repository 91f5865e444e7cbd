/**
 The part of the IDL type language for which t_c_generator emits working buffer
 code, the C values of those types, and the encoding they are meant to have.
 */
module Schema {
  import opened Wrappers
  import opened Wire

  datatype Base =
    | Bool | Byte | I16 | I32 | I64 | U16 | U32 | U64 | IPv4
    | String | Xml | IPAddr | Uuid | Double

  datatype Type =
    | TBase(base: Base)
    | TEnum
    | TStruct(fields: seq<Field>)
    | TList(elem: Base)

  datatype Field = Field(key: int, ty: Type)

  /** What a C struct holds. A string pointer may be NULL; so may a struct pointer. */
  datatype Value =
    | IntV(n: int)
    | BoolV(raw: byte)
    | StrV(str: Option<bytes>)
    | Ip4V(addr: bytes)
    | Ip6V(addr: bytes)
    | IpOtherV(family: byte)
    | UuidV(id: bytes)
    | DoubleV
    | ListV(elems: seq<Value>)
    | StructV(slots: seq<Slot>)
    | NullV

  /** One member of a C struct together with its `__isset_` flag. */
  datatype Slot = Slot(isset: bool, val: Value)

  const T_STOP: byte := 0
  const T_LIST: byte := 15
  const T_STRUCT: byte := 12
  const AF_INET: byte := 2
  const AF_INET6: byte := 10

  function BaseWire(b: Base): byte {
    match b
    case Bool => 2 case Byte => 3 case Double => 4 case I16 => 6 case I32 => 8
    case U64 => 9 case I64 => 10 case String => 11 case U16 => 19 case U32 => 20
    case Xml => 21 case IPv4 => 22 case Uuid => 23 case IPAddr => 24
  }

  /** type_to_enum, as the ThriftType byte. */
  function WireType(t: Type): byte {
    match t
    case TBase(b) => BaseWire(b)
    case TEnum => BaseWire(I32)
    case TStruct(_) => T_STRUCT
    case TList(_) => T_LIST
  }

  predicate IsInt(b: Base) {
    b in {Byte, I16, I32, I64, U16, U32, U64, IPv4}
  }

  function Width(b: Base): nat
    requires IsInt(b)
  {
    match b
    case Byte => 1
    case I16 => 2 case U16 => 2
    case I32 => 4 case U32 => 4 case IPv4 => 4
    case I64 => 8 case U64 => 8
  }

  predicate Signed(b: Base) { b in {Byte, I16, I32, I64} }

  predicate Fits(w: nat, signed: bool, n: int)
    requires w > 0
  {
    if signed then -128 * Pow256(w - 1) <= n < 128 * Pow256(w - 1) else 0 <= n < Pow256(w)
  }

  /** Two's complement: the unsigned reading of the bits of `n` in `w` bytes. */
  function Bits(w: nat, n: int): (u: nat)
    requires w > 0 && -128 * Pow256(w - 1) <= n < Pow256(w)
    ensures u < Pow256(w)
  {
    if n < 0 then n + Pow256(w) else n
  }

  function FromBits(w: nat, signed: bool, u: nat): int
    requires w > 0
  {
    if signed && u >= 128 * Pow256(w - 1) then u - Pow256(w) else u
  }

  function Net(w: nat, n: int): (s: bytes)
    requires w > 0 && -128 * Pow256(w - 1) <= n < Pow256(w)
    ensures |s| == w
  {
    Big(Bits(w, n), w)
  }

  lemma NetInverse(w: nat, signed: bool, n: int)
    requires w > 0 && Fits(w, signed, n)
    ensures FromBits(w, signed, FromBig(Net(w, n))) == n
  {
    FromBigBig(Bits(w, n), w);
  }

  predicate TypedBase(b: Base, v: Value) {
    match b
    case Bool => v.BoolV?
    case String => v.StrV? && (v.str.Some? ==> |v.str.value| < 128 * Pow256(3))
    case Xml => v.StrV? && (v.str.Some? ==> |v.str.value| < 128 * Pow256(3))
    case IPAddr =>
      (v.Ip4V? && |v.addr| == 4) || (v.Ip6V? && |v.addr| == 16)
      || (v.IpOtherV? && v.family != AF_INET && v.family != AF_INET6)
    case Uuid => v.UuidV? && |v.id| == 16
    case Double => v.DoubleV?
    case _ => v.IntV? && Fits(Width(b), Signed(b), v.n)
  }

  /** `v` is a fully populated C value of type `t`. */
  predicate Typed(t: Type, v: Value) {
    match t
    case TBase(b) => TypedBase(b, v)
    case TEnum => TypedBase(I32, v)
    case TList(b) => v.ListV? && |v.elems| < Pow256(4) && forall e | e in v.elems :: TypedBase(b, e)
    case TStruct(fs) =>
      v.StructV? && |v.slots| == |fs| && forall i | 0 <= i < |fs| :: Typed(fs[i].ty, v.slots[i].val)
  }

  /** Field keys fit in the 16 bits the wire gives them and are pairwise different. */
  predicate GoodType(t: Type) {
    t.TStruct? ==>
      && (forall i | 0 <= i < |t.fields| :: Fits(2, true, t.fields[i].key) && GoodType(t.fields[i].ty))
      && (forall i, j | 0 <= i < j < |t.fields| :: t.fields[i].key != t.fields[j].key)
  }

  predicate GoodField(f: Field) {
    Fits(2, true, f.key) && GoodType(f.ty)
  }

  function Chars(v: Value): bytes
    requires v.StrV?
  {
    if v.str.Some? then v.str.value else []
  }

  // ----- The encoding -----

  /** None: the emitted code gives up on this value (double, or an unknown address family). */
  function EncBase(b: Base, v: Value): Option<bytes>
    requires TypedBase(b, v)
  {
    match b
    case Bool => Some([if v.raw != 0 then 1 else 0])
    case String => Some(Net(4, |Chars(v)|) + Chars(v))
    case Xml => Some(Net(4, |Chars(v)|) + Chars(v))
    case IPAddr => if v.Ip4V? then Some([AF_INET] + v.addr) else if v.Ip6V? then Some([AF_INET6] + v.addr) else None
    case Uuid => Some(v.id)
    case Double => None
    case _ => Some(Net(Width(b), v.n))
  }

  function EncElems(b: Base, elems: seq<Value>): Option<bytes>
    requires forall e | e in elems :: TypedBase(b, e)
  {
    if elems == [] then Some([]) else Join(EncBase(b, elems[0]), EncElems(b, elems[1..]))
  }

  function Enc(t: Type, v: Value): Option<bytes>
    requires Typed(t, v) && GoodType(t)
    decreases t, 2
  {
    match t
    case TBase(b) => EncBase(b, v)
    case TEnum => EncBase(I32, v)
    case TList(b) => Join(Some([BaseWire(b)] + Net(4, |v.elems|)), EncElems(b, v.elems))
    case TStruct(fs) => Join(EncFrom(t, v, 0), Some([T_STOP]))
  }

  function EncFrom(t: Type, v: Value, i: nat): Option<bytes>
    requires Typed(t, v) && GoodType(t) && t.TStruct? && i <= |t.fields|
    decreases t, 1, |t.fields| - i
  {
    if i == |t.fields| then Some([]) else Join(EncField(t.fields[i], v.slots[i].val), EncFrom(t, v, i + 1))
  }

  function EncField(f: Field, v: Value): Option<bytes>
    requires GoodField(f) && Typed(f.ty, v)
    decreases f.ty, 3
  {
    Join(Some(FieldHeader(f)), Enc(f.ty, v))
  }

  function FieldHeader(f: Field): bytes
    requires Fits(2, true, f.key)
  {
    [WireType(f.ty)] + Net(2, f.key)
  }

  /** A buffer sandesh prefixes its record with its name. */
  function EncSandesh(name: bytes, t: Type, v: Value): Option<bytes>
    requires Typed(t, v) && GoodType(t) && t.TStruct? && |name| < 128 * Pow256(3)
  {
    Join(Some(Net(4, |name|) + name), Enc(t, v))
  }

  // ----- What survives a round trip -----

  /** Empty string and NULL are one, a bool is 0 or 1, every member is flagged as set. */
  function NormBase(v: Value): Value {
    match v
    case BoolV(raw) => BoolV(if raw != 0 then 1 else 0)
    case StrV(Some(s)) => if s == [] then StrV(None) else v
    case _ => v
  }

  function Norm(t: Type, v: Value): Value
    requires Typed(t, v)
    decreases t
  {
    match t
    case TBase(_) => NormBase(v)
    case TEnum => v
    case TList(_) => ListV(NormElems(v.elems))
    case TStruct(fs) =>
      StructV(seq(|fs|, i requires 0 <= i < |fs| => Slot(true, Norm(fs[i].ty, v.slots[i].val))))
  }

  function NormElems(elems: seq<Value>): seq<Value> {
    seq(|elems|, i requires 0 <= i < |elems| => NormBase(elems[i]))
  }
}
