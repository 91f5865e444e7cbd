/**
 What fields of every type look like on the wire, byte for byte: the type codes of the C library, the
 key, and the value in network order.
 */
module WireVectors {
  import opened Wrappers
  import opened Wire
  import opened Schema

  lemma Powers()
    ensures Pow256(0) == 1 && Pow256(1) == 0x100 && Pow256(2) == 0x1_0000 && Pow256(3) == 0x100_0000 && Pow256(4) == 0x1_0000_0000
    ensures Pow256(7) == 0x100_0000_0000_0000 && Pow256(8) == 0x1_0000_0000_0000_0000
  {
    assert Pow256(5) == 0x100_0000_0000 && Pow256(6) == 0x1_0000_0000_0000;
  }

  /** One more byte at the end. */
  lemma BigMore(n: nat, w: nat, b: byte)
    ensures Big(256 * n + b, w + 1) == Big(n, w) + [b]
  {
  }

  lemma Digits()
    ensures Big(0x102, 2) == [1, 2] && Big(0x102_0304, 4) == [1, 2, 3, 4]
    ensures Big(0x102_0304_0506_0708, 8) == [1, 2, 3, 4, 5, 6, 7, 8]
    ensures Big(2, 4) == [0, 0, 0, 2] && Big(0xfe, 1) == [0xfe]
  {
    hide Big;
    Ones();
    BigMore(1, 1, 2);
    BigMore(0x102, 2, 3);
    BigMore(0x10203, 3, 4);
    BigMore(0x1020304, 4, 5);
    BigMore(0x102030405, 5, 6);
    BigMore(0x10203040506, 6, 7);
    BigMore(0x1020304050607, 7, 8);
    BigMore(0, 1, 0);
    BigMore(0, 2, 0);
    BigMore(0, 3, 2);
  }

  lemma Ones()
    ensures Big(1, 1) == [1] && Big(0, 1) == [0] && Big(0xfe, 1) == [0xfe]
  {
  }

  lemma Keys()
    ensures forall k: nat | k < 256 :: Big(k, 2) == [0, k]
  {
    forall k: nat | k < 256 ensures Big(k, 2) == [0, k] {
      BigMore(0, 1, k);
      Ones();
    }
  }

  /** The bytes of a field. */
  ghost predicate OnWire(f: Field, x: Value, e: bytes) { GoodField(f) && Typed(f.ty, x) && EncField(f, x) == Some(e) }

  lemma OneField(f: Field, x: Value, e: bytes)
    requires GoodField(f) && Typed(f.ty, x) && Enc(f.ty, x) == Some(e) && 0 <= f.key < 256
    ensures OnWire(f, x, [WireType(f.ty), 0, f.key] + e)
  {
    hide Enc, Typed;
    Keys();
    assert [WireType(f.ty)] + [0, f.key] == [WireType(f.ty), 0, f.key];
  }

  /** A bool is its truth; numbers of one, two, four and eight bytes, negative ones in two's complement. */
  lemma NumberVectors()
    ensures OnWire(Field(1, TBase(Bool)), BoolV(7), [2, 0, 1] + [1])
    ensures OnWire(Field(2, TBase(Byte)), IntV(-2), [3, 0, 2] + [0xfe])
    ensures OnWire(Field(3, TBase(I16)), IntV(0x102), [6, 0, 3] + [1, 2])
    ensures OnWire(Field(4, TBase(I32)), IntV(0x102_0304), [8, 0, 4] + [1, 2, 3, 4])
  {
    hide Big, Pow256, OnWire;
    Powers();
    Digits();
    OneField(Field(1, TBase(Bool)), BoolV(7), [1]);
    OneField(Field(2, TBase(Byte)), IntV(-2), [0xfe]);
    OneField(Field(3, TBase(I16)), IntV(0x102), [1, 2]);
    OneField(Field(4, TBase(I32)), IntV(0x102_0304), [1, 2, 3, 4]);
  }

  lemma MoreVectors()
    ensures OnWire(Field(1, TEnum), IntV(0x102_0304), [8, 0, 1] + [1, 2, 3, 4])
    ensures OnWire(Field(2, TBase(I64)), IntV(0x102_0304_0506_0708), [10, 0, 2] + [1, 2, 3, 4, 5, 6, 7, 8])
    ensures OnWire(Field(3, TBase(Uuid)), UuidV(seq(16, _ => 5)), [23, 0, 3] + seq(16, _ => 5))
  {
    hide Big, Pow256, OnWire;
    Powers();
    Digits();
    OneField(Field(1, TEnum), IntV(0x102_0304), [1, 2, 3, 4]);
    OneField(Field(2, TBase(I64)), IntV(0x102_0304_0506_0708), [1, 2, 3, 4, 5, 6, 7, 8]);
    OneField(Field(3, TBase(Uuid)), UuidV(seq(16, _ => 5)), seq(16, _ => 5));
  }

  lemma UnsignedVectors()
    ensures OnWire(Field(1, TBase(U16)), IntV(0x102), [19, 0, 1] + [1, 2])
    ensures OnWire(Field(2, TBase(U32)), IntV(0x102_0304), [20, 0, 2] + [1, 2, 3, 4])
    ensures OnWire(Field(3, TBase(U64)), IntV(0x102_0304_0506_0708), [9, 0, 3] + [1, 2, 3, 4, 5, 6, 7, 8])
    ensures OnWire(Field(4, TBase(IPv4)), IntV(0x102_0304), [22, 0, 4] + [1, 2, 3, 4])
  {
    hide Big, Pow256, OnWire;
    Powers();
    Digits();
    OneField(Field(1, TBase(U16)), IntV(0x102), [1, 2]);
    OneField(Field(2, TBase(U32)), IntV(0x102_0304), [1, 2, 3, 4]);
    OneField(Field(3, TBase(U64)), IntV(0x102_0304_0506_0708), [1, 2, 3, 4, 5, 6, 7, 8]);
    OneField(Field(4, TBase(IPv4)), IntV(0x102_0304), [1, 2, 3, 4]);
  }

  /** The numbers of each type. */
  lemma Ranges(n: int)
    ensures Typed(TBase(Byte), IntV(n)) <==> -0x80 <= n < 0x80
    ensures Typed(TBase(I16), IntV(n)) <==> -0x8000 <= n < 0x8000
    ensures Typed(TBase(I32), IntV(n)) <==> -0x8000_0000 <= n < 0x8000_0000
    ensures Typed(TBase(I64), IntV(n)) <==> -0x8000_0000_0000_0000 <= n < 0x8000_0000_0000_0000
    ensures Typed(TBase(U16), IntV(n)) <==> 0 <= n < 0x1_0000
    ensures Typed(TBase(U32), IntV(n)) <==> 0 <= n < 0x1_0000_0000
    ensures Typed(TBase(IPv4), IntV(n)) <==> 0 <= n < 0x1_0000_0000
    ensures Typed(TBase(U64), IntV(n)) <==> 0 <= n < 0x1_0000_0000_0000_0000
  {
    hide Pow256;
    Powers();
  }

  /** What is never encoded: a double, and an address of neither family. */
  lemma NotEncoded(family: byte)
    requires family != 2 && family != 10
    ensures Enc(TBase(Double), DoubleV).None?
    ensures Typed(TBase(IPAddr), IpOtherV(family)) && Enc(TBase(IPAddr), IpOtherV(family)).None?
  {
  }

  /** Texts have their length in front, addresses their family. */
  lemma TextVectors()
    ensures OnWire(Field(1, TBase(String)), StrV(Some([104, 105])), [11, 0, 1] + ([0, 0, 0, 2] + [104, 105]))
    ensures OnWire(Field(2, TBase(Xml)), StrV(Some([104, 105])), [21, 0, 2] + ([0, 0, 0, 2] + [104, 105]))
    ensures OnWire(Field(3, TBase(IPAddr)), Ip4V([10, 0, 0, 1]), [24, 0, 3] + ([2] + [10, 0, 0, 1]))
    ensures OnWire(Field(4, TBase(IPAddr)), Ip6V(seq(16, _ => 5)), [24, 0, 4] + ([10] + seq(16, _ => 5)))
  {
    hide Big, Pow256, OnWire;
    Powers();
    Digits();
    OneField(Field(1, TBase(String)), StrV(Some([104, 105])), [0, 0, 0, 2] + [104, 105]);
    OneField(Field(2, TBase(Xml)), StrV(Some([104, 105])), [0, 0, 0, 2] + [104, 105]);
    OneField(Field(3, TBase(IPAddr)), Ip4V([10, 0, 0, 1]), [2] + [10, 0, 0, 1]);
    OneField(Field(4, TBase(IPAddr)), Ip6V(seq(16, _ => 5)), [10] + seq(16, _ => 5));
  }

  /** A buffer sandesh has its name in front, with its length. */
  lemma MessageVector()
    ensures |[104, 105]| < 128 * Pow256(3)
    ensures EncSandesh([104, 105], TStruct([]), StructV([])) == Some([0, 0, 0, 2] + [104, 105] + [0])
  {
    hide Big, Pow256;
    Powers();
    Digits();
    assert EncFrom(TStruct([]), StructV([]), 0) == Some([]) && [] + [0] == [0];
  }

  /** A list has its element type and count in front, a record its stop byte behind. */
  lemma ContainerVectors()
    ensures var t, v := TList(Bool), ListV([BoolV(1), BoolV(0)]);
            OnWire(Field(1, t), v, [15, 0, 1] + ([2] + [0, 0, 0, 2] + [1, 0]))
    ensures OnWire(Field(2, TStruct([])), StructV([]), [12, 0, 2] + [0])
  {
    hide Big, Pow256;
    Powers();
    Digits();
    var t, v := TList(Bool), ListV([BoolV(1), BoolV(0)]);
    assert v.elems[1..] == [BoolV(0)] && v.elems[1..][1..] == [];
    assert EncElems(Bool, []) == Some([]);
    assert EncElems(Bool, [BoolV(0)]) == Some([0] + []);
    assert EncElems(Bool, v.elems) == Some([1] + ([0] + [])) && [1] + ([0] + []) == [1, 0];
    assert Enc(t, v) == Some([2] + [0, 0, 0, 2] + [1, 0]);
    OneField(Field(1, t), v, [2] + [0, 0, 0, 2] + [1, 0]);
    assert EncFrom(TStruct([]), StructV([]), 0) == Some([]) && [] + [0] == [0];
    OneField(Field(2, TStruct([])), StructV([]), [0]);
  }
}
