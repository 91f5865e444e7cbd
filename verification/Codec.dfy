/**
 Writer and reader together: round trip, truncation, wire order and schema change.
 */
module Codec {
  import opened Wrappers
  import opened Wire
  import opened Schema
  import opened Reader
  import Writer

  // ----- One value -----

  lemma RunTwo(a: ROp, b: ROp, s: bytes, off: nat, tmp: bytes, dst: Value)
    requires off <= |s| && a.Fetch? && !b.Fetch?
    ensures RunR([a, b], s, off, tmp, dst) ==
            if |s| < off + a.n then Reject else Assign(b, s, off + a.n, s[off..off + a.n])
  {
    assert [a, b][1..] == [b] && [b][1..] == [];
    if off + a.n <= |s| {
      var mid, t := off + a.n, s[off..off + a.n];
      var r := Assign(b, s, mid, t);
      assert RunR([a, b], s, off, tmp, dst) == RunR([b], s, mid, t, dst);
      if r.Ok? {
        assert RunR([b], s, mid, t, dst) == RunR([], s, r.off, t, r.val);
      }
    }
  }

  lemma IntReads(b: Base, v: Value, s: bytes, off: nat, tmp: bytes, dst: Value)
    requires IsInt(b) && TypedBase(b, v) && At(s, off, EncBase(b, v).value)
    ensures RunR(EmitReadBase(b), s, off, tmp, dst) == Ok(off + Width(b), v)
  {
    hide RunR, Big, FromBig, Pow256;
    RunTwo(Fetch(Width(b)), SetInt(Width(b), Signed(b)), s, off, tmp, dst);
    NetInverse(Width(b), Signed(b), v.n);
  }

  /** The length prefix of a string reads back as its length. */
  lemma LengthReads(n: nat)
    requires n < 128 * Pow256(3)
    ensures FromBits(4, true, FromBig(Net(4, n))) == n
  {
    NetInverse(4, true, n);
  }

  lemma StringReads(v: Value, s: bytes, off: nat, tmp: bytes, dst: Value)
    requires TypedBase(String, v) && At(s, off, EncBase(String, v).value)
    ensures RunR(EmitReadBase(String), s, off, tmp, dst) == Ok(off + |EncBase(String, v).value|, NormBase(v))
  {
    hide RunR, Big, FromBig, Pow256;
    AtSplit(s, off, Net(4, |Chars(v)|), Chars(v));
    LengthReads(|Chars(v)|);
    RunTwo(Fetch(4), SetString, s, off, tmp, dst);
  }

  lemma AddressReads(v: Value, s: bytes, off: nat, tmp: bytes, dst: Value)
    requires TypedBase(IPAddr, v) && EncBase(IPAddr, v).Some? && At(s, off, EncBase(IPAddr, v).value)
    ensures RunR(EmitReadBase(IPAddr), s, off, tmp, dst) == Ok(off + |EncBase(IPAddr, v).value|, v)
  {
    AtSplit(s, off, EncBase(IPAddr, v).value[..1], v.addr);
    RunTwo(Fetch(1), SetAddress, s, off, tmp, dst);
  }

  lemma BaseReads(b: Base, v: Value, s: bytes, off: nat, tmp: bytes, dst: Value)
    requires TypedBase(b, v) && EncBase(b, v).Some? && At(s, off, EncBase(b, v).value)
    ensures RunR(EmitReadBase(b), s, off, tmp, dst) == Ok(off + |EncBase(b, v).value|, NormBase(v))
  {
    match b {
      case Bool => RunTwo(Fetch(1), SetBool, s, off, tmp, dst);
      case String => StringReads(v, s, off, tmp, dst);
      case Xml => StringReads(v, s, off, tmp, dst);
      case IPAddr => AddressReads(v, s, off, tmp, dst);
      case Uuid => RunTwo(Fetch(16), SetUuid, s, off, tmp, dst);
      case Double =>
      case _ => IntReads(b, v, s, off, tmp, dst);
    }
  }

  lemma BaseCut(b: Base, v: Value, s: bytes, off: nat, tmp: bytes, dst: Value)
    requires TypedBase(b, v) && EncBase(b, v).Some? && CutAt(s, off, EncBase(b, v).value)
    ensures RunR(EmitReadBase(b), s, off, tmp, dst) == Reject
  {
    match b {
      case Bool => RunTwo(Fetch(1), SetBool, s, off, tmp, dst);
      case String => StringCut(v, s, off, tmp, dst);
      case Xml => StringCut(v, s, off, tmp, dst);
      case IPAddr =>
        CutSplit(s, off, EncBase(IPAddr, v).value[..1], v.addr);
        RunTwo(Fetch(1), SetAddress, s, off, tmp, dst);
      case Uuid => RunTwo(Fetch(16), SetUuid, s, off, tmp, dst);
      case Double =>
      case _ => RunTwo(Fetch(Width(b)), SetInt(Width(b), Signed(b)), s, off, tmp, dst);
    }
  }

  lemma StringCut(v: Value, s: bytes, off: nat, tmp: bytes, dst: Value)
    requires TypedBase(String, v) && CutAt(s, off, EncBase(String, v).value)
    ensures RunR(EmitReadBase(String), s, off, tmp, dst) == Reject
  {
    hide RunR, Big, FromBig, Pow256;
    CutSplit(s, off, Net(4, |Chars(v)|), Chars(v));
    LengthReads(|Chars(v)|);
    RunTwo(Fetch(4), SetString, s, off, tmp, dst);
  }

  // ----- Lists -----

  lemma {:induction false} ElemsRead(b: Base, elems: seq<Value>, s: bytes, off: nat, acc: seq<Value>)
    requires forall e | e in elems :: TypedBase(b, e)
    requires EncElems(b, elems).Some? && At(s, off, EncElems(b, elems).value)
    ensures RunElems(SetList(EmitReadBase(b)), s, off, |elems|, acc)
         == Ok(off + |EncElems(b, elems).value|, acc + NormElems(elems))
  {
    hide RunR, EncBase, EmitReadBase, TypedBase, NormBase;
    if elems == [] {
      assert acc + NormElems([]) == acc;
    } else {
      var e := EncBase(b, elems[0]).value;
      AtSplit(s, off, e, EncElems(b, elems[1..]).value);
      BaseReads(b, elems[0], s, off, [], NullV);
      ElemsRead(b, elems[1..], s, off + |e|, acc + [NormBase(elems[0])]);
      assert acc + NormElems(elems) == acc + [NormBase(elems[0])] + NormElems(elems[1..]);
    }
  }

  lemma {:induction false} ElemsCut(b: Base, elems: seq<Value>, s: bytes, off: nat, acc: seq<Value>)
    requires forall e | e in elems :: TypedBase(b, e)
    requires EncElems(b, elems).Some? && CutAt(s, off, EncElems(b, elems).value)
    ensures RunElems(SetList(EmitReadBase(b)), s, off, |elems|, acc) == Reject
  {
    var e := EncBase(b, elems[0]).value;
    CutSplit(s, off, e, EncElems(b, elems[1..]).value);
    if CutAt(s, off, e) {
      BaseCut(b, elems[0], s, off, [], NullV);
    } else {
      BaseReads(b, elems[0], s, off, [], NullV);
      ElemsCut(b, elems[1..], s, off + |e|, acc + [NormBase(elems[0])]);
    }
  }

  lemma RunListCode(b: Base, s: bytes, off: nat, tmp: bytes, dst: Value)
    requires off <= |s|
    ensures RunR(EmitRead(TList(b)), s, off, tmp, dst) ==
            if |s| < off + 5 then Reject
            else Assign(SetList(EmitReadBase(b)), s, off + 5, s[off + 1..off + 5])
  {
    var ops := EmitRead(TList(b));
    assert ops[1..] == [Fetch(4), SetList(EmitReadBase(b))];
    if off + 1 <= |s| {
      RunTwo(Fetch(4), SetList(EmitReadBase(b)), s, off + 1, s[off..off + 1], dst);
    }
  }

  lemma CountReads(n: nat)
    requires n < Pow256(4)
    ensures FromBig(Net(4, n)) == n
  {
    FromBigBig(n, 4);
  }

  lemma ListReads(b: Base, v: Value, s: bytes, off: nat, tmp: bytes, dst: Value)
    requires Typed(TList(b), v) && Enc(TList(b), v).Some? && At(s, off, Enc(TList(b), v).value)
    ensures RunR(EmitRead(TList(b)), s, off, tmp, dst)
         == Ok(off + |Enc(TList(b), v).value|, Norm(TList(b), v))
  {
    hide RunR;
    var head, body := [BaseWire(b)] + Net(4, |v.elems|), EncElems(b, v.elems).value;
    AtSplit(s, off, head, body);
    AtSplit(s, off, [BaseWire(b)], Net(4, |v.elems|));
    CountReads(|v.elems|);
    RunListCode(b, s, off, tmp, dst);
    ElemsRead(b, v.elems, s, off + 5, []);
    assert [] + NormElems(v.elems) == NormElems(v.elems);
  }

  lemma ListCut(b: Base, v: Value, s: bytes, off: nat, tmp: bytes, dst: Value)
    requires Typed(TList(b), v) && Enc(TList(b), v).Some? && CutAt(s, off, Enc(TList(b), v).value)
    ensures RunR(EmitRead(TList(b)), s, off, tmp, dst) == Reject
  {
    hide RunR;
    var head, body := [BaseWire(b)] + Net(4, |v.elems|), EncElems(b, v.elems).value;
    RunListCode(b, s, off, tmp, dst);
    CutSplit(s, off, head, body);
    if !CutAt(s, off, head) {
      AtSplit(s, off, [BaseWire(b)], Net(4, |v.elems|));
      CountReads(|v.elems|);
      ElemsCut(b, v.elems, s, off + 5, []);
    }
  }

  // ----- Skipping -----

  /** What the skip routine measures correctly: no address, no non-empty list, at any depth. */
  predicate Skippable(t: Type, v: Value)
    requires Typed(t, v)
  {
    match t
    case TBase(b) => b != IPAddr
    case TEnum => true
    case TList(_) => v.elems == []
    case TStruct(fs) => forall i | 0 <= i < |fs| :: Skippable(fs[i].ty, v.slots[i].val)
  }

  /** On base types the skip routine is exact for everything but addresses. */
  lemma SkipBaseExact(b: Base, v: Value, rest: bytes)
    requires TypedBase(b, v) && EncBase(b, v).Some?
    ensures Skip(BaseWire(b), EncBase(b, v).value + rest) == Took(|EncBase(b, v).value|) <==> b != IPAddr
  {
    var s := EncBase(b, v).value + rest;
    if b == String || b == Xml {
      LengthReads(|Chars(v)|);
      assert s[..4] == Net(4, |Chars(v)|);
    }
  }

  lemma SkipListExact(b: Base, v: Value, rest: bytes)
    requires Typed(TList(b), v) && Enc(TList(b), v).Some?
    ensures Skip(T_LIST, Enc(TList(b), v).value + rest) == Took(|Enc(TList(b), v).value|) <==> v.elems == []
  {
    hide FromBig, Big;
    var s := Enc(TList(b), v).value + rest;
    CountReads(|v.elems|);
    assert s[1..5] == Net(4, |v.elems|);
    if v.elems == [] {
      assert EncElems(b, v.elems) == Some([]);
    }
  }

  /** Skipping is exact for what is skippable; outside records, for nothing else. */
  lemma {:induction false} SkipExact(t: Type, v: Value, rest: bytes)
    requires Typed(t, v) && GoodType(t) && Enc(t, v).Some?
    ensures Skippable(t, v) ==> Skip(WireType(t), Enc(t, v).value + rest) == Took(|Enc(t, v).value|)
    ensures !t.TStruct? && !Skippable(t, v) ==> Skip(WireType(t), Enc(t, v).value + rest) != Took(|Enc(t, v).value|)
    decreases t, 1
  {
    match t {
      case TBase(b) => SkipBaseExact(b, v, rest);
      case TEnum => SkipBaseExact(I32, v, rest);
      case TList(b) => SkipListExact(b, v, rest);
      case TStruct(fs) =>
        var e := Enc(t, v).value;
        assert (e + rest)[..|e|] == e;
        if Skippable(t, v) {
          SkipFieldsExact(t, v, e + rest, 0, 0);
        }
    }
  }

  /** What lies where when a field and then `rest` start at `off`. */
  lemma FieldAt(f: Field, x: Value, s: bytes, off: nat, rest: bytes)
    requires GoodField(f) && Typed(f.ty, x) && Enc(f.ty, x).Some?
    requires At(s, off, EncField(f, x).value + rest)
    ensures off + 3 <= |s| && s[off] == WireType(f.ty) != T_STOP
    ensures FromBits(2, true, FromBig(s[off + 1..off + 3])) == f.key
    ensures At(s, off + 3, Enc(f.ty, x).value)
    ensures At(s, off + 3 + |Enc(f.ty, x).value|, rest)
    ensures s[off + 3..] == Enc(f.ty, x).value + s[off + 3 + |Enc(f.ty, x).value|..]
  {
    AtSplit(s, off, FieldHeader(f) + Enc(f.ty, x).value, rest);
    AtSplit(s, off, FieldHeader(f), Enc(f.ty, x).value);
    HeaderAt(f, s, off);
  }

  lemma HeaderAt(f: Field, s: bytes, off: nat)
    requires Fits(2, true, f.key) && At(s, off, FieldHeader(f))
    ensures off + 3 <= |s| && s[off] == WireType(f.ty) != T_STOP
    ensures FromBits(2, true, FromBig(s[off + 1..off + 3])) == f.key
  {
    AtSplit(s, off, [WireType(f.ty)], Net(2, f.key));
    NetInverse(2, true, f.key);
  }

  lemma Regroup(a: bytes, b: bytes, c: bytes)
    ensures (a + b) + c == a + (b + c)
  {
  }

  lemma StopSkips(s: bytes, off: nat)
    requires off < |s| && s[off] == T_STOP
    ensures SkipFields(s, off) == Took(off + 1)
  {
  }

  lemma SkipStep(s: bytes, off: nat, n: nat)
    requires off + 3 <= |s| && s[off] != T_STOP && Skip(s[off], s[off + 3..]) == Took(n)
    ensures SkipFields(s, off) == SkipFields(s, off + 3 + n)
  {
  }

  lemma {:induction false} SkipField(f: Field, x: Value, s: bytes, off: nat, rest: bytes)
    requires GoodField(f) && Typed(f.ty, x) && Enc(f.ty, x).Some? && Skippable(f.ty, x)
    requires At(s, off, EncField(f, x).value + rest)
    ensures At(s, off + |EncField(f, x).value|, rest)
    ensures SkipFields(s, off) == SkipFields(s, off + |EncField(f, x).value|)
    decreases f.ty, 2
  {
    hide Skip, SkipFields, Typed, GoodType;
    FieldAt(f, x, s, off, rest);
    var n := |Enc(f.ty, x).value|;
    SkipExact(f.ty, x, s[off + 3 + n..]);
    SkipStep(s, off, n);
  }

  lemma {:induction false} SkipFieldsExact(t: Type, v: Value, s: bytes, off: nat, i: nat)
    requires Typed(t, v) && GoodType(t) && t.TStruct? && Skippable(t, v) && i <= |t.fields|
    requires EncFrom(t, v, i).Some? && At(s, off, EncFrom(t, v, i).value + [T_STOP])
    ensures SkipFields(s, off) == Took(off + |EncFrom(t, v, i).value| + 1)
    decreases t, 0, |t.fields| - i
  {
    hide Skip, SkipFields, Norm, Typed, GoodType;
    if i == |t.fields| {
      AtSplit(s, off, [], [T_STOP]);
      StopSkips(s, off);
    } else {
      FieldOf(t, v, i);
      var e, tail := EncField(t.fields[i], v.slots[i].val).value, EncFrom(t, v, i + 1).value;
      Regroup(e, tail, [T_STOP]);
      SkipField(t.fields[i], v.slots[i].val, s, off, tail + [T_STOP]);
      SkipFieldsExact(t, v, s, off + |e|, i + 1);
    }
  }

  // ----- Records: any fields on the wire, any compatible reader -----

  /** A field on the wire with its value. */
  datatype Item = Item(f: Field, x: Value)

  predicate GoodItem(m: Item) { GoodField(m.f) && Typed(m.f.ty, m.x) }

  predicate GoodItems(items: seq<Item>) { forall k | 0 <= k < |items| :: GoodItem(items[k]) }

  function EncItems(items: seq<Item>): Option<bytes>
    requires GoodItems(items)
  {
    if items == [] then Some([]) else Join(EncField(items[0].f, items[0].x), EncItems(items[1..]))
  }

  /** The last value that the wire carries for `f`. */
  function LastOf(items: seq<Item>, f: Field): (r: Option<Value>)
    ensures r.Some? ==>
      exists k :: 0 <= k < |items| && items[k] == Item(f, r.value) && forall m | k < m < |items| :: items[m].f != f
    ensures r.None? ==> forall k | 0 <= k < |items| :: items[k].f != f
  {
    if items == [] then None
    else
      var r := LastOf(items[1..], f);
      if r.None? then
        if items[0].f == f then
          assert items[0] == Item(f, items[0].x);
          Some(items[0].x)
        else None
      else
        assert exists k :: 0 < k < |items| && items[k] == Item(f, r.value) && forall m | k < m < |items| :: items[m].f != f by {
          var k :| 0 <= k < |items[1..]| && items[1..][k] == Item(f, r.value) && forall m | k < m < |items[1..]| :: items[1..][m].f != f;
          assert items[k + 1] == Item(f, r.value);
          assert forall m | k + 1 < m < |items| :: items[m] == items[1..][m - 1];
        }
        r
  }

  function IndexOf(fs: seq<Field>, f: Field): (k: nat)
    ensures k <= |fs| && (k < |fs| ==> fs[k] == f) && (k == |fs| ==> f !in fs)
  {
    if fs == [] then 0 else if fs[0] == f then 0
    else
      var k := IndexOf(fs[1..], f);
      1 + k
  }

  /** A reader built from `t2` meets field `f`: it knows the very same field, or its switch has
      no case for that id and type and the value can be skipped. */
  ghost predicate Meets(m: Item, t2: Type)
    requires GoodItem(m) && t2.TStruct?
  {
    m.f in t2.fields || (Skippable(m.f.ty, m.x) && Unknown(m.f, t2))
  }

  ghost predicate Unknown(f: Field, t2: Type)
    requires t2.TStruct?
  {
    forall g | g in t2.fields :: g.key != f.key || WireType(g.ty) != WireType(f.ty)
  }

  /** The struct a `t2` reader has after these fields: the members it shares with the wire are set,
      each to the last value the wire has for it. */
  function Filled(items: seq<Item>, t2: Type, slots: seq<Slot>): (r: seq<Slot>)
    requires GoodItems(items) && t2.TStruct? && |slots| == |t2.fields|
    ensures |r| == |slots|
  {
    seq(|slots|, j requires 0 <= j < |slots| =>
      var x := LastOf(items, t2.fields[j]);
      if x.Some? then Slot(true, Norm(t2.fields[j].ty, x.value)) else slots[j])
  }

  lemma KnownStep(reader: ReaderCode, s: bytes, off: nat, slots: seq<Slot>, k: nat, r: Read<Value>)
    requires off + 3 <= |s| && s[off] != T_STOP && k < |reader.cases|
    requires k == FindCase(reader.cases, FromBits(2, true, FromBig(s[off + 1..off + 3])))
    requires reader.cases[k].wire == s[off] && reader.cases[k].slot < |slots|
    requires r == RunR(reader.cases[k].body, s, off + 3, [], NullV)
    ensures r.Ok? ==>
      ReadFields(reader, s, off, slots)
      == ReadFields(reader, s, r.off, slots[reader.cases[k].slot := Slot(true, r.val)])
    ensures r.Reject? ==> ReadFields(reader, s, off, slots) == Reject
  {
  }

  lemma SkipOver(reader: ReaderCode, s: bytes, off: nat, slots: seq<Slot>, r: Skipped)
    requires off + 3 <= |s| && s[off] != T_STOP && Skip(s[off], s[off + 3..]) == r
    requires var k := FindCase(reader.cases, FromBits(2, true, FromBig(s[off + 1..off + 3])));
             k == |reader.cases| || reader.cases[k].wire != s[off]
    ensures r.Took? ==> ReadFields(reader, s, off, slots) == ReadFields(reader, s, off + 3 + r.n, slots)
    ensures r.Short? ==> ReadFields(reader, s, off, slots) == Reject
    ensures r.Derailed? ==> ReadFields(reader, s, off, slots) == Derail
  {
  }

  /** With distinct keys, the switch finds the case of the field it was emitted for. */
  lemma CaseOf(t2: Type, j: nat)
    requires GoodType(t2) && t2.TStruct? && j < |t2.fields|
    ensures FindCase(EmitReader(t2).cases, t2.fields[j].key) == j
  {
    var k := FindCase(EmitReader(t2).cases, t2.fields[j].key);
    assert EmitReader(t2).cases[j].key == t2.fields[j].key;
  }

  /** The struct of a `t2` reader after it has read field `f` with value `x`. */
  function After(f: Field, x: Value, t2: Type, slots: seq<Slot>): (r: seq<Slot>)
    requires Typed(f.ty, x) && t2.TStruct? && |slots| == |t2.fields|
    ensures |r| == |slots|
  {
    var j := IndexOf(t2.fields, f);
    if j < |slots| then slots[j := Slot(true, Norm(f.ty, x))] else slots
  }

  lemma FilledStep(items: seq<Item>, t2: Type, slots: seq<Slot>)
    requires GoodItems(items) && GoodType(t2) && t2.TStruct? && |slots| == |t2.fields| && items != []
    ensures Filled(items, t2, slots) == Filled(items[1..], t2, After(items[0].f, items[0].x, t2, slots))
  {
    hide Norm, Typed;
    var f := items[0].f;
    var j := IndexOf(t2.fields, f);
    forall m | 0 <= m < |slots|
      ensures Filled(items, t2, slots)[m] == Filled(items[1..], t2, After(f, items[0].x, t2, slots))[m]
    {
      assert t2.fields[m] == f <==> m == j;
    }
  }

  lemma {:induction false} ValueReads(t: Type, v: Value, s: bytes, off: nat, tmp: bytes, dst: Value)
    requires Typed(t, v) && GoodType(t) && Enc(t, v).Some? && At(s, off, Enc(t, v).value)
    ensures RunR(EmitRead(t), s, off, tmp, dst) == Ok(off + |Enc(t, v).value|, Norm(t, v))
    decreases t, 2
  {
    match t {
      case TBase(b) => BaseReads(b, v, s, off, tmp, dst);
      case TEnum => BaseReads(I32, v, s, off, tmp, dst);
      case TList(b) => ListReads(b, v, s, off, tmp, dst);
      case TStruct(_) =>
        assert s[off..][..|Enc(t, v).value|] == Enc(t, v).value;
        StructReads(t, v, s[off..], 0);
        RunNested(EmitReader(t), s, off, tmp, dst);
    }
  }

  lemma {:induction false} StructReads(t: Type, v: Value, s: bytes, off: nat)
    requires Typed(t, v) && GoodType(t) && t.TStruct? && Enc(t, v).Some? && At(s, off, Enc(t, v).value)
    ensures ReadFields(EmitReader(t), s, off, EmitReader(t).zero)
         == Ok(off + |Enc(t, v).value|, Norm(t, v).slots)
    decreases t, 1
  {
    var order := Range(0, |t.fields|);
    AsOrder(t, v, 0);
    ItemsKnown(t, v, order);
    ItemsRead(Items(t, v, order), t, s, off, EmitReader(t).zero, t);
    forall i: nat | i < |t.fields| ensures i in order {
      assert order[i] == i;
    }
    FilledAll(t, v, order, EmitReader(t).zero);
  }

  lemma RunNested(reader: ReaderCode, s: bytes, off: nat, tmp: bytes, dst: Value)
    requires off <= |s|
    ensures RunR([SetStruct(reader)], s, off, tmp, dst) == Assign(SetStruct(reader), s, off, tmp)
  {
    assert [SetStruct(reader)][1..] == [];
    var r := Assign(SetStruct(reader), s, off, tmp);
    if r.Ok? {
      assert RunR([], s, r.off, tmp, r.val) == r;
    }
  }

  function Range(lo: nat, hi: nat): (r: seq<nat>)
    requires lo <= hi
    ensures |r| == hi - lo
  {
    seq(hi - lo, k requires 0 <= k < hi - lo => lo + k)
  }

  /** The members of `v` in the order `order`. */
  function Items(t: Type, v: Value, order: seq<nat>): (r: seq<Item>)
    requires Typed(t, v) && GoodType(t) && t.TStruct? && forall k | 0 <= k < |order| :: order[k] < |t.fields|
    ensures |r| == |order| && GoodItems(r)
  {
    seq(|order|, k requires 0 <= k < |order| => Item(t.fields[order[k]], v.slots[order[k]].val))
  }

  lemma ItemsKnown(t: Type, v: Value, order: seq<nat>)
    requires Typed(t, v) && GoodType(t) && t.TStruct? && forall k | 0 <= k < |order| :: order[k] < |t.fields|
    ensures forall k | 0 <= k < |order| :: Items(t, v, order)[k].f in t.fields && Items(t, v, order)[k].f.ty < t
  {
  }

  /** Declaration order is one of the orders. */
  lemma {:induction false} AsOrder(t: Type, v: Value, i: nat)
    requires Typed(t, v) && GoodType(t) && t.TStruct? && i <= |t.fields|
    ensures EncItems(Items(t, v, Range(i, |t.fields|))) == EncFrom(t, v, i)
    decreases |t.fields| - i
  {
    hide Typed, GoodType, EncField;
    if i < |t.fields| {
      FieldOf(t, v, i);
      var items := Items(t, v, Range(i, |t.fields|));
      assert items[0] == Item(t.fields[i], v.slots[i].val);
      assert items[1..] == Items(t, v, Range(i + 1, |t.fields|));
      AsOrder(t, v, i + 1);
    }
  }

  /** A reader of the writer's own type that has seen every field holds the whole value. */
  lemma FilledAll(t: Type, v: Value, order: seq<nat>, slots: seq<Slot>)
    requires Typed(t, v) && GoodType(t) && t.TStruct? && |slots| == |t.fields|
    requires forall k | 0 <= k < |order| :: order[k] < |t.fields|
    requires forall i: nat | i < |t.fields| :: i in order
    ensures Filled(Items(t, v, order), t, slots) == Norm(t, v).slots
  {
    var items := Items(t, v, order);
    forall j: nat | j < |slots| ensures Filled(items, t, slots)[j] == Norm(t, v).slots[j] {
      assert j in order;
      var m :| 0 <= m < |order| && order[m] == j;
      assert items[m].f == t.fields[j];
      var x := LastOf(items, t.fields[j]);
      var k :| 0 <= k < |items| && items[k] == Item(t.fields[j], x.value);
      assert order[k] == j;
    }
  }

  /** `top` is above the types of all fields: the measure of the induction. */
  lemma {:induction false} ItemsRead(items: seq<Item>, t2: Type, s: bytes, off: nat, slots: seq<Slot>, top: Type)
    requires GoodItems(items) && GoodType(t2) && t2.TStruct? && |slots| == |t2.fields|
    requires forall k | 0 <= k < |items| :: Meets(items[k], t2) && items[k].f.ty < top
    requires EncItems(items).Some? && At(s, off, EncItems(items).value + [T_STOP])
    ensures ReadFields(EmitReader(t2), s, off, slots) == Ok(off + |EncItems(items).value| + 1, Filled(items, t2, slots))
    decreases top, 0, 1 + |items|
  {
    hide RunR, Skip, ReadFields, GoodType, Typed, Norm, After, Meets, EncField;
    if items == [] {
      AtSplit(s, off, [], [T_STOP]);
      StopReads(EmitReader(t2), s, off, slots);
      assert Filled([], t2, slots) == slots;
    } else {
      var f, x := items[0].f, items[0].x;
      assert GoodItem(items[0]);
      var e, tail := EncField(f, x).value, EncItems(items[1..]).value;
      Regroup(e, tail, [T_STOP]);
      EncFieldSome(f, x);
      FieldRead(f, x, t2, s, off, slots, tail + [T_STOP]);
      ItemsRead(items[1..], t2, s, off + |e|, After(f, x, t2, slots), top);
      FilledStep(items, t2, slots);
    }
  }

  lemma EncFieldSome(f: Field, x: Value)
    requires GoodField(f) && Typed(f.ty, x)
    ensures EncField(f, x).Some? <==> Enc(f.ty, x).Some?
  {
  }

  /** The general law of the field loop: whatever fields are on the wire, in whatever order and
      however often, and whatever compatible type the reader was built from, it ends after the stop
      byte with exactly the shared members set, each to the last value the wire has for it. */
  lemma FieldsRead(items: seq<Item>, t2: Type, s: bytes, off: nat, slots: seq<Slot>)
    requires GoodItems(items) && GoodType(t2) && t2.TStruct? && |slots| == |t2.fields|
    requires forall k | 0 <= k < |items| :: Meets(items[k], t2)
    requires EncItems(items).Some? && At(s, off, EncItems(items).value + [T_STOP])
    ensures ReadFields(EmitReader(t2), s, off, slots) == Ok(off + |EncItems(items).value| + 1, Filled(items, t2, slots))
  {
    hide ReadFields, GoodType, Typed, Meets, EncItems, Filled;
    TopAbove(items);
    ItemsRead(items, t2, s, off, slots, Top(items));
  }

  ghost function Top(items: seq<Item>): Type {
    TStruct(seq(|items|, k requires 0 <= k < |items| => items[k].f))
  }

  lemma TopAbove(items: seq<Item>)
    ensures forall k | 0 <= k < |items| :: items[k].f.ty < Top(items)
  {
    forall k | 0 <= k < |items| ensures items[k].f.ty < Top(items) {
      assert Top(items).fields[k] == items[k].f;
    }
  }

  lemma StopReads(reader: ReaderCode, s: bytes, off: nat, slots: seq<Slot>)
    requires off < |s| && s[off] == T_STOP
    ensures ReadFields(reader, s, off, slots) == Ok(off + 1, slots)
  {
  }

  lemma EndReads(reader: ReaderCode, s: bytes, slots: seq<Slot>)
    ensures ReadFields(reader, s, |s|, slots) == Reject
  {
  }

  lemma FieldOf(t: Type, v: Value, i: nat)
    requires Typed(t, v) && GoodType(t) && t.TStruct? && i < |t.fields|
    ensures v.StructV? && i < |v.slots| && Typed(t.fields[i].ty, v.slots[i].val) && GoodField(t.fields[i])
  {
  }

  /** One turn of the field loop. */
  lemma {:induction false} FieldRead(f: Field, x: Value, t2: Type, s: bytes, off: nat, slots: seq<Slot>, rest: bytes)
    requires GoodField(f) && Typed(f.ty, x) && Enc(f.ty, x).Some?
    requires GoodType(t2) && t2.TStruct? && |slots| == |t2.fields| && Meets(Item(f, x), t2)
    requires At(s, off, EncField(f, x).value + rest)
    ensures var end := off + |EncField(f, x).value|;
            At(s, end, rest) &&
            ReadFields(EmitReader(t2), s, off, slots) == ReadFields(EmitReader(t2), s, end, After(f, x, t2, slots))
    decreases f.ty, 3
  {
    hide ReadFields, RunR, Skip, Typed, GoodType;
    FieldAt(f, x, s, off, rest);
    var n := |Enc(f.ty, x).value|;
    var j := IndexOf(t2.fields, f);
    if j < |t2.fields| {
      ValueReads(f.ty, x, s, off + 3, [], NullV);
      KnownField(t2, j, s, off, slots, Ok(off + 3 + n, Norm(f.ty, x)));
    } else {
      SkipExact(f.ty, x, s[off + 3 + n..]);
      NoCase(t2, f);
      SkipOver(EmitReader(t2), s, off, slots, Took(n));
    }
  }

  lemma KnownField(t2: Type, j: nat, s: bytes, off: nat, slots: seq<Slot>, r: Read<Value>)
    requires GoodType(t2) && t2.TStruct? && |slots| == |t2.fields| && j < |t2.fields|
    requires off + 3 <= |s| && s[off] == WireType(t2.fields[j].ty) != T_STOP
    requires FromBits(2, true, FromBig(s[off + 1..off + 3])) == t2.fields[j].key
    requires r == RunR(EmitRead(t2.fields[j].ty), s, off + 3, [], NullV)
    ensures r.Ok? ==>
      ReadFields(EmitReader(t2), s, off, slots) == ReadFields(EmitReader(t2), s, r.off, slots[j := Slot(true, r.val)])
    ensures r.Reject? ==> ReadFields(EmitReader(t2), s, off, slots) == Reject
  {
    CaseOf(t2, j);
    var c := EmitReader(t2).cases[j];
    assert c.slot == j && c.body == EmitRead(t2.fields[j].ty);
    KnownStep(EmitReader(t2), s, off, slots, j, r);
  }

  lemma NoCase(t2: Type, f: Field)
    requires t2.TStruct?
    requires Unknown(f, t2)
    ensures var cases := EmitReader(t2).cases;
            var k := FindCase(cases, f.key);
            k == |cases| || cases[k].wire != WireType(f.ty)
  {
    var cases := EmitReader(t2).cases;
    var k := FindCase(cases, f.key);
    if k < |cases| {
      assert t2.fields[k] in t2.fields;
    }
  }

  // ----- Malformed values -----

  /** A length that is zero or negative as a signed number reads as a null string of four bytes. */
  lemma NullString(s: bytes, off: nat, tmp: bytes, dst: Value)
    requires off + 4 <= |s| && (s[off] >= 128 || s[off..off + 4] == [0, 0, 0, 0])
    ensures RunR(EmitReadBase(String), s, off, tmp, dst) == Ok(off + 4, StrV(None))
  {
    hide RunR, FromBig;
    RunTwo(Fetch(4), SetString, s, off, tmp, dst);
    SignByte(s[off..off + 4]);
  }

  /** Four bytes as a signed number: its sign is the top bit, and it is zero only for zeros. */
  lemma SignByte(b: bytes)
    requires |b| == 4
    ensures FromBits(4, true, FromBig(b)) < 0 <==> b[0] >= 128
    ensures FromBits(4, true, FromBig(b)) == 0 <==> b == [0, 0, 0, 0]
  {
    var n0: int, n1: int, n2: int, n3: int := b[0], b[1], b[2], b[3];
    assert b[..3][..2] == b[..2] && b[..2][..1] == b[..1] && b[..1][..0] == [];
    assert FromBig([]) == 0;
    assert FromBig(b[..1]) == n0;
    assert FromBig(b[..2]) == n0 * 256 + n1;
    assert FromBig(b[..3]) == (n0 * 256 + n1) * 256 + n2;
    assert FromBig(b) == ((n0 * 256 + n1) * 256 + n2) * 256 + n3;
    assert Pow256(3) == 0x100_0000 && Pow256(4) == 0x1_0000_0000;
  }

  /** Any byte but zero is a true bool. */
  lemma AnyBool(s: bytes, off: nat, tmp: bytes, dst: Value)
    requires off < |s|
    ensures RunR(EmitReadBase(Bool), s, off, tmp, dst) == Ok(off + 1, BoolV(if s[off] == 0 then 0 else 1))
  {
    hide RunR;
    RunTwo(Fetch(1), SetBool, s, off, tmp, dst);
  }

  /** Skipping a null string takes its length alone. */
  lemma SkipNullString(s: bytes)
    requires 4 <= |s| && (s[0] >= 128 || s[..4] == [0, 0, 0, 0])
    ensures Skip(BaseWire(String), s) == Took(4) && Skip(BaseWire(Xml), s) == Took(4)
  {
    hide FromBig;
    SignByte(s[..4]);
  }

  /** An address family that is neither of the two is rejected. */
  lemma UnknownFamily(s: bytes, off: nat, tmp: bytes, dst: Value)
    requires off < |s| && s[off] != AF_INET && s[off] != AF_INET6
    ensures RunR(EmitReadBase(IPAddr), s, off, tmp, dst) == Reject
  {
    hide RunR;
    RunTwo(Fetch(1), SetAddress, s, off, tmp, dst);
    assert s[off..off + 1] == [s[off]];
  }

  /** The bytes of a base type of fixed size. */
  function FixedSize(b: Base): Option<nat> {
    match b
    case Bool => Some(1) case Byte => Some(1)
    case I16 => Some(2) case U16 => Some(2)
    case I32 => Some(4) case U32 => Some(4) case IPv4 => Some(4)
    case I64 => Some(8) case U64 => Some(8) case Double => Some(8)
    case Uuid => Some(16)
    case _ => None
  }

  /** Any bytes will do for a skipped value of fixed size, doubles included; a type code the routine does
      not know takes none. */
  lemma SkipAny(b: Base, wire: byte, s: bytes)
    ensures FixedSize(b).Some? ==>
              Skip(BaseWire(b), s) == if |s| < FixedSize(b).value then Short else Took(FixedSize(b).value)
    ensures wire > 24 || wire in {0, 1, 5, 7, 13, 14, 16, 17, 18, 24} ==> Skip(wire, s) == Took(0)
  {
  }

  /** A skipped list is given up for a negative count, is its header when empty, and derails otherwise. */
  lemma SkipListHeader(s: bytes)
    requires |s| >= 5
    ensures s[1] >= 128 ==> Skip(T_LIST, s) == Short
    ensures s[1..5] == [0, 0, 0, 0] ==> Skip(T_LIST, s) == Took(5)
    ensures s[1] < 128 && s[1..5] != [0, 0, 0, 0] ==> Skip(T_LIST, s) == Derailed
  {
    hide FromBig;
    SignByte(s[1..5]);
  }

  // ----- Truncated buffers -----

  /** A reader built from `t2` notices when this field is cut short: it knows the field, or skips it
      and the field is not a record. */
  ghost predicate Notices(m: Item, t2: Type)
    requires GoodItem(m) && t2.TStruct?
  {
    Meets(m, t2) && (m.f in t2.fields || !m.f.ty.TStruct?)
  }

  lemma {:induction false} ValueCut(t: Type, v: Value, s: bytes, off: nat, tmp: bytes, dst: Value)
    requires Typed(t, v) && GoodType(t) && Enc(t, v).Some? && CutAt(s, off, Enc(t, v).value)
    ensures RunR(EmitRead(t), s, off, tmp, dst) == Reject
    decreases t, 2
  {
    match t {
      case TBase(b) => BaseCut(b, v, s, off, tmp, dst);
      case TEnum => BaseCut(I32, v, s, off, tmp, dst);
      case TList(b) => ListCut(b, v, s, off, tmp, dst);
      case TStruct(_) =>
        StructCut(t, v, s[off..], 0);
        RunNested(EmitReader(t), s, off, tmp, dst);
    }
  }

  lemma {:induction false} StructCut(t: Type, v: Value, s: bytes, off: nat)
    requires Typed(t, v) && GoodType(t) && t.TStruct? && Enc(t, v).Some? && CutAt(s, off, Enc(t, v).value)
    ensures ReadFields(EmitReader(t), s, off, EmitReader(t).zero) == Reject
    decreases t, 1
  {
    var order := Range(0, |t.fields|);
    AsOrder(t, v, 0);
    ItemsKnown(t, v, order);
    ItemsCut(Items(t, v, order), t, s, off, EmitReader(t).zero, t);
  }

  lemma {:induction false} ItemsCut(items: seq<Item>, t2: Type, s: bytes, off: nat, slots: seq<Slot>, top: Type)
    requires GoodItems(items) && GoodType(t2) && t2.TStruct? && |slots| == |t2.fields|
    requires forall k | 0 <= k < |items| :: Notices(items[k], t2) && items[k].f.ty < top
    requires EncItems(items).Some? && CutAt(s, off, EncItems(items).value + [T_STOP])
    ensures ReadFields(EmitReader(t2), s, off, slots) == Reject
    decreases top, 0, 1 + |items|
  {
    hide RunR, Skip, ReadFields, GoodType, Typed, Norm, After, Meets, EncField;
    if items == [] {
      EndReads(EmitReader(t2), s, slots);
    } else {
      var f, x := items[0].f, items[0].x;
      assert GoodItem(items[0]);
      var e, tail := EncField(f, x).value, EncItems(items[1..]).value;
      Regroup(e, tail, [T_STOP]);
      EncFieldSome(f, x);
      CutSplit(s, off, e, tail + [T_STOP]);
      if CutAt(s, off, e) {
        FieldCut(f, x, t2, s, off, slots);
      } else {
        assert e + [] == e;
        FieldRead(f, x, t2, s, off, slots, []);
        ItemsCut(items[1..], t2, s, off + |e|, After(f, x, t2, slots), top);
      }
    }
  }

  lemma {:induction false} FieldCut(f: Field, x: Value, t2: Type, s: bytes, off: nat, slots: seq<Slot>)
    requires GoodField(f) && Typed(f.ty, x) && Enc(f.ty, x).Some? && CutAt(s, off, EncField(f, x).value)
    requires GoodType(t2) && t2.TStruct? && |slots| == |t2.fields| && Notices(Item(f, x), t2)
    ensures ReadFields(EmitReader(t2), s, off, slots) == Reject
    decreases f.ty, 3
  {
    hide RunR, Skip, GoodType;
    CutSplit(s, off, FieldHeader(f), Enc(f.ty, x).value);
    var j := IndexOf(t2.fields, f);
    if CutAt(s, off, FieldHeader(f)) {
      if off < |s| {
        assert s[off] == s[off..][0] == FieldHeader(f)[0];
      }
    } else if j < |t2.fields| {
      HeaderAt(f, s, off);
      ValueCut(f.ty, x, s, off + 3, [], NullV);
      KnownField(t2, j, s, off, slots, Reject);
    } else {
      HeaderAt(f, s, off);
      SkipCut(f.ty, x, s[off + 3..]);
      NoCase(t2, f);
      SkipOver(EmitReader(t2), s, off, slots, Short);
    }
  }

  /** Skipping notices the end of the buffer in anything but a record. */
  lemma SkipCut(t: Type, v: Value, s: bytes)
    requires Typed(t, v) && GoodType(t) && Enc(t, v).Some? && Skippable(t, v) && !t.TStruct?
    requires s < Enc(t, v).value
    ensures Skip(WireType(t), s) == Short
  {
    match t {
      case TBase(b) => SkipBaseCut(b, v, s);
      case TEnum => SkipBaseCut(I32, v, s);
      case TList(b) => assert |Enc(t, v).value| == 5;
    }
  }

  lemma SkipBaseCut(b: Base, v: Value, s: bytes)
    requires TypedBase(b, v) && EncBase(b, v).Some? && b != IPAddr && s < EncBase(b, v).value
    ensures Skip(BaseWire(b), s) == Short
  {
    if (b == String || b == Xml) && |s| >= 4 {
      LengthReads(|Chars(v)|);
      assert s[..4] == Net(4, |Chars(v)|);
    }
  }

  /** A nested failure inside a skipped record moves the scan back into the field's header; a low key
      byte of zero is then taken for the end of the record. */
  lemma FailureInsideRecord(s: bytes, off: nat)
    requires off + 3 <= |s| && s[off] != T_STOP && Skip(s[off], s[off + 3..]) == Short
    ensures SkipFields(s, off) == SkipFields(s, off + 2)
    ensures s[off + 2] == T_STOP ==> SkipFields(s, off) == Took(off + 3)
  {
    hide Skip;
    if s[off + 2] == T_STOP {
      StopSkips(s, off + 2);
    }
  }

  // ----- Where a cut falls -----

  /** The field whose value is cut when only `n` bytes are left of these fields and the stop byte: its
      index and its offset. None if the cut is in a header or just before the stop byte. */
  function CutItem(items: seq<Item>, n: nat): (r: Option<(nat, nat)>)
    requires GoodItems(items) && EncItems(items).Some?
    ensures r.Some? ==> r.value.0 < |items| && r.value.1 + 3 <= n
  {
    if items == [] || n < 3 then None
    else
      var e := |EncField(items[0].f, items[0].x).value|;
      if n < e then Some((0, 0))
      else
        var p := CutItem(items[1..], n - e);
        if p.None? then None else Some((1 + p.value.0, e + p.value.1))
  }

  lemma CutItemStep(items: seq<Item>, n: nat)
    requires GoodItems(items) && EncItems(items).Some?
    ensures items == [] || n < 3 ==> CutItem(items, n).None?
    ensures items != [] && 3 <= n ==>
      var e := |EncField(items[0].f, items[0].x).value|;
      if n < e then CutItem(items, n) == Some((0, 0))
      else
        var p := CutItem(items[1..], n - e);
        CutItem(items, n) == if p.None? then None else Some((1 + p.value.0, e + p.value.1))
  {
    hide Typed, GoodType, EncField;
  }

  /** The fields of a record. */
  function Own(t: Type, v: Value): (r: seq<Item>)
    requires Typed(t, v) && GoodType(t) && t.TStruct?
    ensures GoodItems(r)
  {
    Items(t, v, Range(0, |t.fields|))
  }

  lemma OwnEncodes(t: Type, v: Value)
    requires Typed(t, v) && GoodType(t) && t.TStruct?
    ensures EncItems(Own(t, v)) == EncFrom(t, v, 0)
    ensures Enc(t, v) == Join(EncItems(Own(t, v)), Some([T_STOP]))
  {
    AsOrder(t, v, 0);
  }

  lemma {:induction false} ItemEncodes(items: seq<Item>, k: nat)
    requires GoodItems(items) && EncItems(items).Some? && k < |items|
    ensures Enc(items[k].f.ty, items[k].x).Some?
  {
    hide GoodType, Typed, EncField;
    assert GoodItem(items[0]);
    EncFieldSome(items[0].f, items[0].x);
    if k > 0 {
      ItemEncodes(items[1..], k - 1);
    }
  }

  lemma EncFieldLong(f: Field, x: Value)
    requires GoodField(f) && Typed(f.ty, x) && EncField(f, x).Some?
    ensures |EncField(f, x).value| == 3 + |Enc(f.ty, x).value|
  {
  }

  /** What skipping makes of a record that is cut short. It gives up if the cut is in a header or before
      the stop byte; else it goes on after the cut field, whose own skip, if it fails, takes it one byte
      back, to the low byte of the key. */
  ghost function CutScan(items: seq<Item>, s: bytes): (r: Skipped)
    requires GoodItems(items) && EncItems(items).Some?
    ensures r.Took? ==> r.n <= |s|
    decreases |s|, 0
  {
    var c := CutItem(items, |s|);
    if c.None? then Short
    else
      var (k, at) := c.value;
      ItemEncodes(items, k);
      var inner := CutValueScan(items[k], s[at + 3..]);
      if inner.Took? then SkipFields(s, at + 3 + inner.n) else if inner.Short? then SkipFields(s, at + 2) else Derailed
  }

  /** The same of a value of any type: only a record can be cut short unnoticed. */
  ghost function CutValueScan(m: Item, s: bytes): (r: Skipped)
    requires GoodItem(m) && Enc(m.f.ty, m.x).Some?
    ensures r.Took? ==> r.n <= |s|
    decreases |s|, 1
  {
    if m.f.ty.TStruct? then
      OwnEncodes(m.f.ty, m.x);
      CutScan(Own(m.f.ty, m.x), s)
    else Short
  }

  ghost predicate AllSkippable(items: seq<Item>)
    requires GoodItems(items)
  {
    forall k | 0 <= k < |items| :: Skippable(items[k].f.ty, items[k].x)
  }

  /** The scan of a cut record comes exactly to the field the cut is in. */
  lemma {:induction false} SkipToCut(items: seq<Item>, s: bytes, off: nat)
    requires GoodItems(items) && AllSkippable(items) && EncItems(items).Some?
    requires CutAt(s, off, EncItems(items).value + [T_STOP])
    ensures var c := CutItem(items, |s| - off);
            if c.None? then SkipFields(s, off) == Short
            else
              var m, at := items[c.value.0], off + c.value.1;
              && Enc(m.f.ty, m.x).Some? && SkipFields(s, off) == SkipFields(s, at)
              && CutAt(s, at, EncField(m.f, m.x).value) && at + 3 <= |s|
  {
    hide Skip, SkipFields, Typed, GoodType, EncField, Skippable;
    if items == [] {
      EndSkips(s, off);
    } else {
      var f, x := items[0].f, items[0].x;
      assert GoodItem(items[0]);
      EncFieldSome(f, x);
      EncFieldLong(f, x);
      var e, tail := EncField(f, x).value, EncItems(items[1..]).value;
      Regroup(e, tail, [T_STOP]);
      CutSplit(s, off, e, tail + [T_STOP]);
      if CutAt(s, off, e) {
        if |s| - off < 3 {
          SkipHeaderCut(f, x, s, off);
        }
      } else {
        assert e + [] == e;
        SkipField(f, x, s, off, []);
        SkipToCut(items[1..], s, off + |e|);
      }
    }
  }

  lemma EndSkips(s: bytes, off: nat)
    requires off == |s|
    ensures SkipFields(s, off) == Short
  {
  }

  lemma SkipHeaderCut(f: Field, x: Value, s: bytes, off: nat)
    requires GoodField(f) && Typed(f.ty, x) && Enc(f.ty, x).Some? && CutAt(s, off, EncField(f, x).value) && |s| - off < 3
    ensures SkipFields(s, off) == Short
  {
    hide Skip, GoodType;
    if off < |s| {
      assert s[off] == s[off..][0] == FieldHeader(f)[0];
    }
  }

  lemma CutValue(f: Field, x: Value, s: bytes, at: nat)
    requires GoodField(f) && Typed(f.ty, x) && Enc(f.ty, x).Some? && CutAt(s, at, EncField(f, x).value) && at + 3 <= |s|
    ensures s[at] == WireType(f.ty) != T_STOP && FromBits(2, true, FromBig(s[at + 1..at + 3])) == f.key
    ensures CutAt(s[at + 3..], 0, Enc(f.ty, x).value)
  {
    hide Typed, GoodType, Enc;
    CutSplit(s, at, FieldHeader(f), Enc(f.ty, x).value);
    HeaderAt(f, s, at);
  }

  /** At every depth: skipping a record that is cut short does what CutScan says. */
  lemma {:induction false} SkipCutRecord(items: seq<Item>, s: bytes)
    requires GoodItems(items) && AllSkippable(items) && EncItems(items).Some?
    requires CutAt(s, 0, EncItems(items).value + [T_STOP])
    ensures Skip(T_STRUCT, s) == CutScan(items, s)
    decreases |s|, 0
  {
    hide Skip, SkipFields, EncField, EncItems, Typed, GoodType, CutItem, CutValueScan, Skippable;
    SkipToCut(items, s, 0);
    SkipRecord(s);
    var c := CutItem(items, |s|);
    if c.Some? {
      var (k, at) := c.value;
      assert GoodItem(items[k]);
      CutValue(items[k].f, items[k].x, s, at);
      SkipCutValue(items[k], s[at + 3..]);
      SkipOnward(s, at);
    }
  }

  lemma {:induction false} SkipCutValue(m: Item, s: bytes)
    requires GoodItem(m) && Enc(m.f.ty, m.x).Some? && Skippable(m.f.ty, m.x) && CutAt(s, 0, Enc(m.f.ty, m.x).value)
    ensures Skip(WireType(m.f.ty), s) == CutValueScan(m, s)
    decreases |s|, 1
  {
    hide Skip, SkipFields, EncItems, Typed, GoodType, CutScan, Skippable, Own;
    if m.f.ty.TStruct? {
      OwnEncodes(m.f.ty, m.x);
      OwnSkippable(m.f.ty, m.x);
      SkipCutRecord(Own(m.f.ty, m.x), s);
    } else {
      SkipCut(m.f.ty, m.x, s);
    }
  }

  lemma SkipRecord(s: bytes)
    ensures Skip(T_STRUCT, s) == SkipFields(s, 0)
  {
  }

  lemma OwnSkippable(t: Type, v: Value)
    requires Typed(t, v) && GoodType(t) && t.TStruct? && Skippable(t, v)
    ensures AllSkippable(Own(t, v))
  {
  }

  lemma SkipOnward(s: bytes, at: nat)
    requires at + 3 <= |s| && s[at] != T_STOP
    ensures var r := Skip(s[at], s[at + 3..]);
            SkipFields(s, at) ==
            if r.Took? then SkipFields(s, at + 3 + r.n) else if r.Short? then SkipFields(s, at + 2) else Derailed
  {
    hide Skip;
  }

  /** The reader comes exactly to the field the cut is in, with the fields before it filled in. */
  lemma {:induction false} ReadToCut(items: seq<Item>, t2: Type, s: bytes, off: nat, slots: seq<Slot>)
    requires GoodItems(items) && GoodType(t2) && t2.TStruct? && |slots| == |t2.fields|
    requires forall k | 0 <= k < |items| :: Meets(items[k], t2)
    requires EncItems(items).Some? && CutAt(s, off, EncItems(items).value + [T_STOP])
    ensures var c := CutItem(items, |s| - off);
            if c.None? then ReadFields(EmitReader(t2), s, off, slots) == Reject
            else
              var m, at := items[c.value.0], off + c.value.1;
              && Enc(m.f.ty, m.x).Some? && CutAt(s, at, EncField(m.f, m.x).value) && at + 3 <= |s|
              && ReadFields(EmitReader(t2), s, off, slots)
                 == ReadFields(EmitReader(t2), s, at, Filled(items[..c.value.0], t2, slots))
  {
    hide RunR, Skip, ReadFields, GoodType, Typed, Norm, After, Meets, EncField, Filled, CutItem;
    CutItemStep(items, |s| - off);
    if items == [] {
      EndReads(EmitReader(t2), s, slots);
    } else {
      var f, x := items[0].f, items[0].x;
      assert GoodItem(items[0]);
      EncFieldSome(f, x);
      EncFieldLong(f, x);
      var e, tail := EncField(f, x).value, EncItems(items[1..]).value;
      Regroup(e, tail, [T_STOP]);
      CutSplit(s, off, e, tail + [T_STOP]);
      if CutAt(s, off, e) {
        FilledNone(t2, slots);
        assert items[..0] == [];
        if |s| - off < 3 {
          ReadHeaderCut(f, x, t2, s, off, slots);
        }
      } else {
        assert e + [] == e;
        FieldRead(f, x, t2, s, off, slots, []);
        ReadToCut(items[1..], t2, s, off + |e|, After(f, x, t2, slots));
        var c := CutItem(items[1..], |s| - off - |e|);
        if c.Some? {
          FilledPrefix(items, c.value.0, t2, slots);
        }
      }
    }
  }

  lemma FilledPrefix(items: seq<Item>, k: nat, t2: Type, slots: seq<Slot>)
    requires GoodItems(items) && GoodType(t2) && t2.TStruct? && |slots| == |t2.fields| && k < |items|
    ensures Filled(items[..1 + k], t2, slots) == Filled(items[1..][..k], t2, After(items[0].f, items[0].x, t2, slots))
  {
    hide Filled, After, GoodType, Typed;
    assert items[..1 + k][0] == items[0] && items[..1 + k][1..] == items[1..][..k];
    FilledStep(items[..1 + k], t2, slots);
  }

  lemma FilledNone(t2: Type, slots: seq<Slot>)
    requires t2.TStruct? && |slots| == |t2.fields|
    ensures Filled([], t2, slots) == slots
  {
  }

  lemma ReadHeaderCut(f: Field, x: Value, t2: Type, s: bytes, off: nat, slots: seq<Slot>)
    requires GoodField(f) && Typed(f.ty, x) && Enc(f.ty, x).Some? && CutAt(s, off, EncField(f, x).value) && |s| - off < 3
    requires t2.TStruct?
    ensures ReadFields(EmitReader(t2), s, off, slots) == Reject
  {
    hide Skip, RunR, GoodType;
    if off < |s| {
      assert s[off] == s[off..][0] == FieldHeader(f)[0];
    }
  }

  /** What a reader makes of a field that is cut in its value: it rejects it unless it is a record it does
      not know and skipping that record does not give up; then it goes on there. */
  ghost function CutFieldRead(m: Item, t2: Type, s: bytes, at: nat, slots: seq<Slot>): Read<seq<Slot>>
    requires GoodItem(m) && t2.TStruct? && Enc(m.f.ty, m.x).Some? && at + 3 <= |s|
  {
    var r := if m.f in t2.fields then Short else CutValueScan(m, s[at + 3..]);
    if r.Took? then ReadFields(EmitReader(t2), s, at + 3 + r.n, slots) else if r.Short? then Reject else Derail
  }

  ghost function CutRead(items: seq<Item>, t2: Type, s: bytes, off: nat, slots: seq<Slot>): Read<seq<Slot>>
    requires GoodItems(items) && t2.TStruct? && |slots| == |t2.fields| && EncItems(items).Some? && off <= |s|
  {
    var c := CutItem(items, |s| - off);
    if c.None? then Reject
    else
      var (k, at) := c.value;
      ItemEncodes(items, k);
      CutFieldRead(items[k], t2, s, off + at, Filled(items[..k], t2, slots))
  }

  lemma FieldCutExactly(m: Item, t2: Type, s: bytes, at: nat, slots: seq<Slot>)
    requires GoodItem(m) && GoodType(t2) && t2.TStruct? && |slots| == |t2.fields| && Meets(m, t2)
    requires Enc(m.f.ty, m.x).Some? && CutAt(s, at, EncField(m.f, m.x).value) && at + 3 <= |s|
    ensures ReadFields(EmitReader(t2), s, at, slots) == CutFieldRead(m, t2, s, at, slots)
  {
    hide RunR, Skip, ReadFields, GoodType, Typed, EncField, CutValueScan, Skippable;
    if m.f in t2.fields {
      FieldCut(m.f, m.x, t2, s, at, slots);
    } else {
      CutValue(m.f, m.x, s, at);
      SkipCutValue(m, s[at + 3..]);
      NoCase(t2, m.f);
      SkipOver(EmitReader(t2), s, at, slots, Skip(WireType(m.f.ty), s[at + 3..]));
    }
  }

  lemma FieldsCutExactly(items: seq<Item>, t2: Type, s: bytes, off: nat, slots: seq<Slot>)
    requires GoodItems(items) && GoodType(t2) && t2.TStruct? && |slots| == |t2.fields|
    requires forall k | 0 <= k < |items| :: Meets(items[k], t2)
    requires EncItems(items).Some? && CutAt(s, off, EncItems(items).value + [T_STOP])
    ensures ReadFields(EmitReader(t2), s, off, slots) == CutRead(items, t2, s, off, slots)
  {
    hide RunR, Skip, ReadFields, GoodType, Typed, EncField, EncItems, Filled, CutFieldRead, CutItem, Meets;
    ReadToCut(items, t2, s, off, slots);
    var c := CutItem(items, |s| - off);
    if c.Some? {
      var (k, at) := c.value;
      assert GoodItem(items[k]) && Meets(items[k], t2);
      FieldCutExactly(items[k], t2, s, off + at, Filled(items[..k], t2, slots));
    }
  }

  // ----- The theorems -----

  /** A name followed by fields. */
  ghost function Message(name: bytes, items: seq<Item>): Option<bytes>
    requires GoodItems(items) && |name| < 128 * Pow256(3)
  {
    Join(Some(Net(4, |name|) + name), Join(EncItems(items), Some([T_STOP])))
  }

  lemma MessageItems(name: bytes, items: seq<Item>)
    requires GoodItems(items) && |name| < 128 * Pow256(3)
    ensures Message(name, items).Some? <==> EncItems(items).Some?
  {
  }

  lemma MessageInOrder(name: bytes, t: Type, v: Value)
    requires Typed(t, v) && GoodType(t) && t.TStruct? && |name| < 128 * Pow256(3)
    ensures Message(name, Items(t, v, Range(0, |t.fields|))) == EncSandesh(name, t, v)
  {
    AsOrder(t, v, 0);
  }

  /** Reading consumes exactly the message, whatever follows it, and sets exactly the members
      whose key and type the message carries, each to the last value it has there. */
  lemma MessageReads(name: bytes, items: seq<Item>, t2: Type, rest: bytes)
    requires GoodItems(items) && GoodType(t2) && t2.TStruct? && |name| < 128 * Pow256(3)
    requires forall k | 0 <= k < |items| :: Meets(items[k], t2)
    requires Message(name, items).Some?
    ensures var e := Message(name, items).value;
            ReadSandesh(EmitReader(t2), e + rest) == Ok(|e|, Filled(items, t2, EmitReader(t2).zero))
  {
    hide RunR, ReadFields, EncItems, Filled, Meets, GoodItem;
    var head, body := Net(4, |name|) + name, EncItems(items).value + [T_STOP];
    var s := Message(name, items).value + rest;
    assert At(s, 0, head) && At(s, |head|, body);
    NameReads(name, s);
    FieldsRead(items, t2, s, |head|, EmitReader(t2).zero);
  }

  /** A member that os_zalloc left alone: zero, null, empty. */
  predicate ZeroBytes(v: Value) {
    match v
    case IntV(n) => n == 0
    case BoolV(raw) => raw == 0
    case StrV(s) => s.None?
    case IpOtherV(family) => family == 0
    case UuidV(id) => forall i | 0 <= i < |id| :: id[i] == 0
    case ListV(elems) => elems == []
    case DoubleV => true
    case NullV => true
    case _ => false
  }

  lemma ZeroIsZero(t: Type)
    ensures ZeroBytes(Zero(t)) && (if t.TStruct? then Zero(t) == NullV else Typed(t, Zero(t)))
  {
  }

  /** Member by member: set iff the message carries it, then with the last value it has there; else
      unset and all zero. */
  lemma MessageSets(name: bytes, items: seq<Item>, t2: Type, rest: bytes)
    requires GoodItems(items) && GoodType(t2) && t2.TStruct? && |name| < 128 * Pow256(3)
    requires forall k | 0 <= k < |items| :: Meets(items[k], t2)
    requires Message(name, items).Some?
    ensures var e := Message(name, items).value;
            var r := ReadSandesh(EmitReader(t2), e + rest);
            && r.Ok? && r.off == |e| && |r.val| == |t2.fields|
            && forall j | 0 <= j < |t2.fields| ::
                 && (r.val[j].isset <==> exists k :: 0 <= k < |items| && items[k].f == t2.fields[j])
                 && (!r.val[j].isset ==> ZeroBytes(r.val[j].val) && (t2.fields[j].ty.TStruct? || Typed(t2.fields[j].ty, r.val[j].val)))
                 && (r.val[j].isset ==> exists k ::
                       && 0 <= k < |items| && items[k].f == t2.fields[j]
                       && (forall m | k < m < |items| :: items[m].f != t2.fields[j])
                       && r.val[j].val == Norm(items[k].f.ty, items[k].x))
  {
    hide Message, ReadSandesh, Meets, Typed, GoodType, Norm, ZeroBytes, Zero, LastOf;
    MessageReads(name, items, t2, rest);
    var val := Filled(items, t2, EmitReader(t2).zero);
    forall j | 0 <= j < |t2.fields|
      ensures val[j].isset <==> exists k :: 0 <= k < |items| && items[k].f == t2.fields[j]
      ensures !val[j].isset ==> ZeroBytes(val[j].val) && (t2.fields[j].ty.TStruct? || Typed(t2.fields[j].ty, val[j].val))
      ensures val[j].isset ==> exists k ::
                && 0 <= k < |items| && items[k].f == t2.fields[j]
                && (forall m | k < m < |items| :: items[m].f != t2.fields[j])
                && val[j].val == Norm(items[k].f.ty, items[k].x)
    {
      ZeroIsZero(t2.fields[j].ty);
      var x := LastOf(items, t2.fields[j]);
      if x.Some? {
        var k :| 0 <= k < |items| && items[k] == Item(t2.fields[j], x.value) && forall m | k < m < |items| :: items[m].f != t2.fields[j];
        assert items[k].f == t2.fields[j];
      }
    }
  }

  /** The normal form encodes as the value itself, so what was read writes the same bytes again. */
  lemma {:induction false} NormEncodesSame(t: Type, v: Value)
    requires Typed(t, v) && GoodType(t)
    ensures Typed(t, Norm(t, v)) && Enc(t, Norm(t, v)) == Enc(t, v)
    decreases t, 2
  {
    match t {
      case TBase(_) =>
      case TEnum =>
      case TList(b) =>
        NormElemsSame(b, v.elems);
      case TStruct(fs) =>
        forall i | 0 <= i < |fs| ensures Typed(fs[i].ty, Norm(t, v).slots[i].val) {
          NormEncodesSame(fs[i].ty, v.slots[i].val);
        }
        NormFieldsSame(t, v, 0);
    }
  }

  lemma NormBaseSame(b: Base, v: Value)
    requires TypedBase(b, v)
    ensures TypedBase(b, NormBase(v)) && EncBase(b, NormBase(v)) == EncBase(b, v)
  {
  }

  lemma {:induction false} NormElemsSame(b: Base, elems: seq<Value>)
    requires forall e | e in elems :: TypedBase(b, e)
    ensures (forall e | e in NormElems(elems) :: TypedBase(b, e)) && EncElems(b, NormElems(elems)) == EncElems(b, elems)
  {
    if elems != [] {
      NormElemsSame(b, elems[1..]);
      var n := NormElems(elems);
      assert n == [NormBase(elems[0])] + NormElems(elems[1..]) && n[1..] == NormElems(elems[1..]);
      NormBaseSame(b, elems[0]);
    } else {
      assert NormElems(elems) == [];
    }
  }

  lemma {:induction false} NormFieldsSame(t: Type, v: Value, i: nat)
    requires Typed(t, v) && GoodType(t) && t.TStruct? && i <= |t.fields| && Typed(t, Norm(t, v))
    ensures EncFrom(t, Norm(t, v), i) == EncFrom(t, v, i)
    decreases t, 1, |t.fields| - i
  {
    hide Typed;
    if i < |t.fields| {
      FieldOf(t, v, i);
      FieldOf(t, Norm(t, v), i);
      NormEncodesSame(t.fields[i].ty, v.slots[i].val);
      NormFieldsSame(t, v, i + 1);
    }
  }

  lemma NameReads(name: bytes, s: bytes)
    requires |name| < 128 * Pow256(3) && At(s, 0, Net(4, |name|) + name)
    ensures var r := RunR(EmitReadBase(String), s, 0, [], NullV); r.Ok? && r.off == 4 + |name|
  {
    StringReads(StrV(Some(name)), s, 0, [], NullV);
  }

  /** Round trip: the reader of the writer's own type returns the value and its exact length. */
  lemma RoundTrip(name: bytes, t: Type, v: Value, rest: bytes)
    requires Typed(t, v) && GoodType(t) && t.TStruct? && |name| < 128 * Pow256(3)
    requires EncSandesh(name, t, v).Some?
    ensures var e := EncSandesh(name, t, v).value;
            ReadSandesh(EmitReader(t), e + rest) == Ok(|e|, Norm(t, v).slots)
  {
    hide ReadSandesh, EncSandesh, Message, Items, Norm, Typed, GoodType;
    var order := Range(0, |t.fields|);
    forall i: nat | i < |t.fields| ensures i in order {
      assert order[i] == i;
    }
    MessageInOrder(name, t, v);
    WireOrder(name, t, v, order, rest);
  }

  /** Decoding does not depend on the order of the fields on the wire. */
  lemma WireOrder(name: bytes, t: Type, v: Value, order: seq<nat>, rest: bytes)
    requires Typed(t, v) && GoodType(t) && t.TStruct? && |name| < 128 * Pow256(3)
    requires forall k | 0 <= k < |order| :: order[k] < |t.fields|
    requires forall i: nat | i < |t.fields| :: i in order
    requires Message(name, Items(t, v, order)).Some?
    ensures var e := Message(name, Items(t, v, order)).value;
            ReadSandesh(EmitReader(t), e + rest) == Ok(|e|, Norm(t, v).slots)
  {
    hide ReadSandesh, Message, Filled, Norm, Typed, GoodType, Items;
    ItemsKnown(t, v, order);
    MessageReads(name, Items(t, v, order), t, rest);
    FilledAll(t, v, order, EmitReader(t).zero);
  }

  /** The result of reading any strict prefix of a message, by the reader of any schema that knows its
      fields or can skip them. */
  lemma PrefixRead(name: bytes, items: seq<Item>, t2: Type, n: nat)
    requires GoodItems(items) && GoodType(t2) && t2.TStruct? && |name| < 128 * Pow256(3)
    requires forall k | 0 <= k < |items| :: Meets(items[k], t2)
    requires Message(name, items).Some? && n < |Message(name, items).value|
    ensures var s := Message(name, items).value[..n];
            ReadSandesh(EmitReader(t2), s) ==
            if n < 4 + |name| then Reject else CutRead(items, t2, s, 4 + |name|, EmitReader(t2).zero)
  {
    hide RunR, ReadFields, EncItems, GoodItem, Meets, CutRead;
    var head, body := Net(4, |name|) + name, EncItems(items).value + [T_STOP];
    var s := (head + body)[..n];
    CutSplit(s, 0, head, body);
    if CutAt(s, 0, head) {
      StringCut(StrV(Some(name)), s, 0, [], NullV);
    } else {
      NameReads(name, s);
      FieldsCutExactly(items, t2, s, |head|, EmitReader(t2).zero);
    }
  }

  /** The cut is noticed: it is in a header, or in a field that is known or not a record, or in a header
      directly inside an unknown record. */
  ghost predicate CutNoticed(items: seq<Item>, t2: Type, n: nat)
    requires GoodItems(items) && t2.TStruct? && EncItems(items).Some?
  {
    var c := CutItem(items, n);
    c.Some? ==>
      var (k, p) := c.value;
      var m := items[k];
      ItemEncodes(items, k);
      m.f in t2.fields || !m.f.ty.TStruct? ||
      (OwnEncodes(m.f.ty, m.x); CutItem(Own(m.f.ty, m.x), n - p - 3).None?)
  }

  lemma NoticedRejected(items: seq<Item>, t2: Type, s: bytes, off: nat, slots: seq<Slot>)
    requires GoodItems(items) && t2.TStruct? && |slots| == |t2.fields| && EncItems(items).Some? && off <= |s|
    requires CutNoticed(items, t2, |s| - off)
    ensures CutRead(items, t2, s, off, slots) == Reject
  {
    hide ReadFields, GoodType, Typed, EncItems, CutItem, SkipFields, Filled, Own;
    var c := CutItem(items, |s| - off);
    if c.Some? {
      var (k, at) := c.value;
      ItemEncodes(items, k);
      var m, rest := items[k], s[off + at + 3..];
      assert GoodItem(m) && |rest| == |s| - off - at - 3;
      if m.f !in t2.fields && m.f.ty.TStruct? {
        OwnEncodes(m.f.ty, m.x);
        assert CutScan(Own(m.f.ty, m.x), rest) == Short;
      }
      assert m.f in t2.fields || CutValueScan(m, rest) == Short;
    }
  }

  /** A strict prefix is rejected wherever the cut is noticed, whatever the other fields are. */
  lemma PrefixRejectedAcross(name: bytes, items: seq<Item>, t2: Type, n: nat)
    requires GoodItems(items) && GoodType(t2) && t2.TStruct? && |name| < 128 * Pow256(3)
    requires forall k | 0 <= k < |items| :: Meets(items[k], t2)
    requires Message(name, items).Some? && n < |Message(name, items).value|
    requires 4 + |name| <= n ==> CutNoticed(items, t2, n - 4 - |name|)
    ensures ReadSandesh(EmitReader(t2), Message(name, items).value[..n]) == Reject
  {
    hide ReadSandesh, Message, CutRead, CutNoticed, Meets, GoodItem;
    MessageItems(name, items);
    PrefixRead(name, items, t2, n);
    if 4 + |name| <= n {
      NoticedRejected(items, t2, Message(name, items).value[..n], 4 + |name|, EmitReader(t2).zero);
    }
  }

  /** Every strict prefix of a message, in any field order, is rejected by its own reader. */
  lemma PrefixRejected(name: bytes, t: Type, v: Value, order: seq<nat>, n: nat)
    requires Typed(t, v) && GoodType(t) && t.TStruct? && |name| < 128 * Pow256(3)
    requires forall k | 0 <= k < |order| :: order[k] < |t.fields|
    requires Message(name, Items(t, v, order)).Some? && n < |Message(name, Items(t, v, order)).value|
    ensures ReadSandesh(EmitReader(t), Message(name, Items(t, v, order)).value[..n]) == Reject
  {
    hide ReadSandesh, Message, Items, Typed, GoodType;
    ItemsKnown(t, v, order);
    MessageItems(name, Items(t, v, order));
    PrefixRejectedAcross(name, Items(t, v, order), t, n);
  }

  const ADDRESS_ONLY := TStruct([Field(1, TBase(IPAddr))])
  const EMPTY := TStruct([])
  const AN_ADDRESS := StructV([Slot(true, Ip4V([0, 0, 0, 0]))])
  const AN_ENCODING: bytes := [24, 0, 1, 2, 0, 0, 0, 0, 0]

  /** An address field the reader does not know is not skipped: this record takes 9 bytes, yet the
      reader takes the address for a field header and stops after 8. */
  lemma UnknownAddressDerails()
    ensures Typed(ADDRESS_ONLY, AN_ADDRESS) && GoodType(ADDRESS_ONLY)
    ensures Enc(ADDRESS_ONLY, AN_ADDRESS) == Some(AN_ENCODING)
    ensures ReadFields(EmitReader(EMPTY), AN_ENCODING, 0, []) == Ok(8, [])
  {
    AddressEncoding();
    AddressMisread();
  }

  lemma AddressEncoding()
    ensures Typed(ADDRESS_ONLY, AN_ADDRESS) && GoodType(ADDRESS_ONLY)
    ensures Enc(ADDRESS_ONLY, AN_ADDRESS) == Some(AN_ENCODING)
  {
    hide Enc;
    assert Big(1, 2) == [0, 1];
    AddressEncodes(Ip4V([0, 0, 0, 0]));
    OneField(ADDRESS_ONLY.fields[0], Ip4V([0, 0, 0, 0]));
    assert FieldHeader(ADDRESS_ONLY.fields[0]) == [24, 0, 1];
    assert Enc(TBase(IPAddr), Ip4V([0, 0, 0, 0])) == Some([2] + [0, 0, 0, 0]);
    assert [24, 0, 1] + ([2] + [0, 0, 0, 0]) + [T_STOP] == AN_ENCODING;
    assert ADDRESS_ONLY == TStruct([ADDRESS_ONLY.fields[0]]);
  }

  lemma AddressEncodes(x: Value)
    requires x.Ip4V? && |x.addr| == 4
    ensures Enc(TBase(IPAddr), x) == Some([AF_INET] + x.addr)
  {
  }

  lemma AddressMisread()
    ensures ReadFields(EmitReader(EMPTY), AN_ENCODING, 0, []) == Ok(8, [])
  {
    hide RunR, Skip;
    var s, reader := AN_ENCODING, EmitReader(EMPTY);
    AddressSkips();
    SkipOver(reader, s, 0, [], Took(0));
    SkipOver(reader, s, 3, [], Took(1));
    StopReads(reader, s, 7, []);
  }

  lemma AddressSkips()
    ensures Skip(24, AN_ENCODING[3..]) == Took(0) && Skip(2, AN_ENCODING[6..]) == Took(1)
  {
  }

  const LUCKY := Ip6V([0, 0, 0, 0, 0, 0, 0, 0, 0, 0, 1, 0, 0, 1, 0, 0])

  /** In a record the scan can fall back in step by chance: this address is misread as three fields,
      and the record is skipped exactly all the same. */
  lemma LuckyAddressSkips()
    ensures var t, v := ADDRESS_ONLY, StructV([Slot(true, LUCKY)]);
            && Typed(t, v) && GoodType(t) && !Skippable(t, v)
            && Enc(t, v).Some? && Skip(T_STRUCT, Enc(t, v).value) == Took(|Enc(t, v).value|)
  {
    hide Enc, Skip, SkipFields;
    var t, v := ADDRESS_ONLY, StructV([Slot(true, LUCKY)]);
    assert Big(1, 2) == [0, 1];
    assert TypedBase(IPAddr, LUCKY);
    Address6Encodes(LUCKY);
    OneField(t.fields[0], LUCKY);
    assert FieldHeader(t.fields[0]) == [24, 0, 1];
    var s: bytes := [24, 0, 1] + ([AF_INET6] + LUCKY.addr) + [T_STOP];
    assert t == TStruct([t.fields[0]]) && Enc(t, v) == Some(s);
    LuckySkips(s);
    assert !Skippable(t.fields[0].ty, LUCKY);
  }

  lemma LuckySkips(s: bytes)
    requires s == [24, 0, 1] + ([AF_INET6] + LUCKY.addr) + [T_STOP]
    ensures Skip(T_STRUCT, s) == Took(21) && |s| == 21
  {
    hide SkipFields;
    SkipStep(s, 0, 0);
    SkipStep(s, 3, 8);
    SkipStep(s, 14, 0);
    SkipStep(s, 17, 0);
    StopSkips(s, 20);
  }

  lemma Address6Encodes(x: Value)
    requires x.Ip6V? && |x.addr| == 16
    ensures Enc(TBase(IPAddr), x) == Some([AF_INET6] + x.addr)
  {
  }

  const NESTED := TStruct([Field(256, TBase(String))])
  const WITH_RECORD := TStruct([Field(9, NESTED)])
  const FIVE: bytes := [97, 98, 99, 100, 101]
  const A_RECORD := StructV([Slot(true, StructV([Slot(true, StrV(Some(FIVE)))]))])
  const CUT_RECORD: bytes := [12, 0, 9, 11, 1, 0, 0, 0, 0, 5]

  /** A record the reader does not know may be cut short unnoticed: these ten bytes of a seventeen-byte
      encoding are read as a whole message of seven. */
  lemma CutRecordAccepted()
    ensures Typed(WITH_RECORD, A_RECORD) && GoodType(WITH_RECORD)
    ensures Enc(WITH_RECORD, A_RECORD) == Some(CUT_RECORD + FIVE + [0, 0])
    ensures ReadFields(EmitReader(EMPTY), CUT_RECORD, 0, []) == Ok(7, [])
  {
    RecordEncoding();
    RecordMisread();
  }

  lemma RecordEncoding()
    ensures Typed(WITH_RECORD, A_RECORD) && GoodType(WITH_RECORD)
    ensures Enc(WITH_RECORD, A_RECORD) == Some(CUT_RECORD + FIVE + [0, 0])
  {
    hide Enc, Big, Pow256;
    SmallNumbers();
    var f, x := NESTED.fields[0], StrV(Some(FIVE));
    StringEncodes(x);
    OneField(f, x);
    OneField(WITH_RECORD.fields[0], A_RECORD.slots[0].val);
    var inner := [11, 1, 0] + ([0, 0, 0, 5] + FIVE) + [T_STOP];
    assert FieldHeader(f) == [11, 1, 0] && Enc(NESTED, A_RECORD.slots[0].val) == Some(inner);
    assert FieldHeader(WITH_RECORD.fields[0]) == [12, 0, 9];
    assert [12, 0, 9] + inner + [T_STOP] == CUT_RECORD + FIVE + [0, 0];
  }

  lemma StringEncodes(x: Value)
    requires TypedBase(String, x)
    ensures Enc(TBase(String), x) == Some(Net(4, |Chars(x)|) + Chars(x))
  {
  }

  /** A record with one member. */
  lemma OneField(f: Field, x: Value)
    requires GoodField(f) && Typed(f.ty, x) && Enc(f.ty, x).Some?
    ensures var t, v := TStruct([f]), StructV([Slot(true, x)]);
            && Typed(t, v) && GoodType(t)
            && Enc(t, v) == Some(FieldHeader(f) + Enc(f.ty, x).value + [T_STOP])
  {
    var t, v, e := TStruct([f]), StructV([Slot(true, x)]), FieldHeader(f) + Enc(f.ty, x).value;
    assert EncFrom(t, v, 1) == Some([]);
    assert EncField(f, x) == Some(e);
    assert EncFrom(t, v, 0) == Some(e + []) && e + [] == e;
  }

  lemma SmallNumbers()
    ensures Pow256(1) == 256 && Pow256(2) == 0x1_0000 && Pow256(3) == 0x100_0000
    ensures Big(9, 2) == [0, 9] && Big(256, 2) == [1, 0] && Big(5, 4) == [0, 0, 0, 5]
  {
    assert Big(0, 1) == [0] && Big(1, 1) == [1];
    assert Big(0, 2) == [0, 0] && Big(0, 3) == [0, 0, 0];
  }

  lemma RecordMisread()
    ensures ReadFields(EmitReader(EMPTY), CUT_RECORD, 0, []) == Ok(7, [])
  {
    hide RunR, ReadFields;
    var s, reader := CUT_RECORD, EmitReader(EMPTY);
    RecordSkips();
    SkipOver(reader, s, 0, [], Took(3));
    StopReads(reader, s, 6, []);
  }

  lemma RecordSkips()
    ensures Skip(T_STRUCT, CUT_RECORD[3..]) == Took(3)
  {
    hide FromBig, FromBits;
    var s := CUT_RECORD[3..];
    assert s[3..][..4] == [0, 0, 0, 5];
    SmallNumbers();
    LengthReads(5);
    FailureInsideRecord(s, 0);
  }

  /** The emitted writer and then the emitted reader, on one buffer. */
  method WriteThenRead(name: bytes, t: Type, v: Value, buf: array<byte>, buflen: nat)
    returns (ret: int, r: Read<seq<Slot>>)
    requires Typed(t, v) && GoodType(t) && t.TStruct? && |name| < 128 * Pow256(3) && buflen <= buf.Length
    modifies buf
    ensures ret >= 0 <==> EncSandesh(name, t, v).Some? && |EncSandesh(name, t, v).value| <= buflen
    ensures ret >= 0 ==> r == Ok(ret, Norm(t, v).slots)
    ensures ret < 0 ==> ret == -1
    ensures buf[buflen..] == old(buf[buflen..])
  {
    ret := Writer.WriteSandesh(name, t, v, buf, buflen);
    r := Reject;
    if ret >= 0 {
      var s := buf[..buflen];
      assert s == EncSandesh(name, t, v).value + s[ret..];
      RoundTrip(name, t, v, s[ret..]);
      var head := ReadField(EmitReadBase(String), s, 0);
      if head.Ok? {
        r := ReadLoop(EmitReader(t), s, head.off);
      }
      assert buf[buflen..] == buf[ret..][buflen - ret..];
    }
  }
}
