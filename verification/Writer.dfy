/**
 The emitted buffer writer. `Emit*` is the generator: it turns a record type into
 the statements of its `_write_binary_to_buffer` function. `RunOps` gives those
 statements their meaning and `Exec` runs them on a real buffer. The theorems say
 that the emitted statements produce exactly the encoding, or return -1, and stay
 inside the buffer they were given.
 */
module Writer {
  import opened Wrappers
  import opened Memory
  import opened Wire
  import opened Schema

  // ----- Emitted statements -----

  /** `w->f` or, inside a list loop, `w->f[Xi]`. */
  datatype Ref = Member(i: nat) | Elem(i: nat)

  datatype Len = Fixed(n: nat) | StrLen(r: Ref)

  datatype Src =
    | Lit(b: bytes)
    | IntOf(r: Ref, w: nat)
    | BoolOf(r: Ref)
    | StrLenOf(r: Ref)
    | StrOf(r: Ref)
    | CountOf(i: nat)
    | FamilyOf(r: Ref)
    | AddrOf(r: Ref)
    | UuidOf(r: Ref)

  datatype Op =
    | Check(len: Len)                             // if (Xbuflen < Xoffset + len) return -1;
    | Copy(src: Src, len: Len)                    // memcpy (Xbuf + Xoffset, src, len);
    | Advance(len: Len)                           // Xoffset += len;
    | IfFamily(r: Ref, v4: seq<Op>, v6: seq<Op>)  // else return -1;
    | ForList(i: nat, body: seq<Op>)              // for (Xi = 0; Xi < w->f_size; Xi++)
    | Call(i: nat, body: seq<Op>)                 // Xret = f_write (.., Xbuf + Xoffset, Xbuflen - Xoffset)
    | Fail                                        // return -1;

  // ----- The generator -----

  function EmitPut(src: Src, len: Len): seq<Op> {
    [Check(len), Copy(src, len), Advance(len)]
  }

  function EmitBase(b: Base, r: Ref): seq<Op> {
    match b
    case Bool => EmitPut(BoolOf(r), Fixed(1))
    case String => EmitPut(StrLenOf(r), Fixed(4)) + EmitPut(StrOf(r), StrLen(r))
    case Xml => EmitPut(StrLenOf(r), Fixed(4)) + EmitPut(StrOf(r), StrLen(r))
    case IPAddr =>
      [IfFamily(r,
                EmitPut(FamilyOf(r), Fixed(1)) + EmitPut(AddrOf(r), Fixed(4)),
                EmitPut(FamilyOf(r), Fixed(1)) + EmitPut(AddrOf(r), Fixed(16)))]
    case Uuid => EmitPut(UuidOf(r), Fixed(16))
    case Double => [Fail]
    case _ => EmitPut(IntOf(r, Width(b)), Fixed(Width(b)))
  }

  function EmitValue(t: Type, i: nat): seq<Op>
    requires GoodType(t)
    decreases t, 2
  {
    match t
    case TBase(b) => EmitBase(b, Member(i))
    case TEnum => EmitBase(I32, Member(i))
    case TList(b) =>
      EmitPut(Lit([BaseWire(b)]), Fixed(1)) + EmitPut(CountOf(i), Fixed(4))
      + [ForList(i, EmitBase(b, Elem(i)))]
    case TStruct(_) => [Call(i, EmitStruct(t))]
  }

  function EmitField(t: Type, i: nat): seq<Op>
    requires GoodType(t) && t.TStruct? && i < |t.fields|
    decreases t, 0, 0
  {
    EmitPut(Lit([WireType(t.fields[i].ty)]), Fixed(1)) + EmitPut(Lit(Net(2, t.fields[i].key)), Fixed(2))
    + EmitValue(t.fields[i].ty, i)
  }

  function EmitFrom(t: Type, i: nat): seq<Op>
    requires GoodType(t) && t.TStruct? && i <= |t.fields|
    decreases t, 0, 1 + |t.fields| - i
  {
    if i == |t.fields| then [] else EmitField(t, i) + EmitFrom(t, i + 1)
  }

  /** The body of the write function of record type `t`. */
  function EmitStruct(t: Type): seq<Op>
    requires GoodType(t) && t.TStruct?
    decreases t, 1
  {
    EmitFrom(t, 0) + EmitPut(Lit([T_STOP]), Fixed(1))
  }

  function EmitSandesh(name: bytes, t: Type): seq<Op>
    requires GoodType(t) && t.TStruct? && |name| < 128 * Pow256(3)
  {
    EmitPut(Lit(Net(4, |name|)), Fixed(4)) + EmitPut(Lit(name), Fixed(|name|)) + EmitStruct(t)
  }

  // ----- Meaning of the emitted statements -----

  /** One activation: the struct being written, the loop index, and the buffer slice it was handed. */
  datatype Frame = Frame(slots: seq<Slot>, xi: nat, base: nat, len: nat)

  /** Running: fell through. Returned: returned -1. Fault: read or wrote outside memory it owns. */
  datatype WState = Running(buf: bytes, off: nat) | Returned(buf: bytes) | Fault

  function Deref(r: Ref, f: Frame): Option<Value> {
    if r.i >= |f.slots| then None
    else
      var v := f.slots[r.i].val;
      if r.Member? then Some(v)
      else if v.ListV? && f.xi < |v.elems| then Some(v.elems[f.xi])
      else None
  }

  function LenOf(l: Len, f: Frame): Option<nat> {
    match l
    case Fixed(n) => Some(n)
    case StrLen(r) =>
      match Deref(r, f) {
        case Some(StrV(s)) => Some(|Chars(StrV(s))|)
        case _ => None
      }
  }

  function SrcBytes(src: Src, f: Frame): Option<bytes> {
    match src
    case Lit(b) => Some(b)
    case CountOf(i) =>
      if i < |f.slots| && f.slots[i].val.ListV? && |f.slots[i].val.elems| < Pow256(4)
      then Some(Net(4, |f.slots[i].val.elems|)) else None
    case _ =>
      var v := Deref(src.r, f);
      if v.None? then None else FieldBytes(src, v.value)
  }

  function FieldBytes(src: Src, v: Value): Option<bytes>
    requires !src.Lit? && !src.CountOf?
  {
    if src.IntOf? && v.IntV? then
      if src.w > 0 && -128 * Pow256(src.w - 1) <= v.n < Pow256(src.w) then Some(Net(src.w, v.n)) else None
    else if src.BoolOf? && v.BoolV? then Some([if v.raw != 0 then 1 else 0])
    else if src.StrLenOf? && v.StrV? && |Chars(v)| < 128 * Pow256(3) then Some(Net(4, |Chars(v)|))
    else if src.StrOf? && v.StrV? then Some(Chars(v))
    else if src.FamilyOf? && (v.Ip4V? || v.Ip6V?) then Some([if v.Ip4V? then AF_INET else AF_INET6])
    else if src.AddrOf? && (v.Ip4V? || v.Ip6V?) then Some(v.addr)
    else if src.UuidOf? && v.UuidV? then Some(v.id)
    else None
  }

  function RunOp(op: Op, f: Frame, buf: bytes, off: nat): WState
    decreases op, 0
  {
    match op
    case Check(l) =>
      var n := LenOf(l, f);
      if n.None? then Fault else if f.len < off + n.value then Returned(buf) else Running(buf, off)
    case Copy(src, l) =>
      var n, s := LenOf(l, f), SrcBytes(src, f);
      if n.None? || s.None? || |s.value| < n.value || f.base + off + n.value > |buf| then Fault
      else Running(Splice(buf, f.base + off, s.value[..n.value]), off)
    case Advance(l) =>
      var n := LenOf(l, f);
      if n.None? then Fault else Running(buf, off + n.value)
    case IfFamily(r, v4, v6) =>
      (match Deref(r, f)
       case Some(Ip4V(_)) => RunOps(v4, f, buf, off)
       case Some(Ip6V(_)) => RunOps(v6, f, buf, off)
       case Some(IpOtherV(_)) => Returned(buf)
       case _ => Fault)
    case ForList(i, body) =>
      if i < |f.slots| && f.slots[i].val.ListV?
      then RunFor(op, f, buf, off, 0) else Fault
    case Call(i, body) =>
      if i < |f.slots| && f.slots[i].val.StructV? && off <= f.len then
        var r := RunOps(body, Frame(f.slots[i].val.slots, 0, f.base + off, f.len - off), buf, 0);
        if r.Running? then Running(r.buf, off + r.off) else r
      else Fault
    case Fail => Returned(buf)
  }

  function RunFor(op: Op, f: Frame, buf: bytes, off: nat, xi: nat): WState
    requires op.ForList? && op.i < |f.slots| && f.slots[op.i].val.ListV?
    requires xi <= |f.slots[op.i].val.elems|
    decreases op.body, 1, |f.slots[op.i].val.elems| - xi
  {
    if xi == |f.slots[op.i].val.elems| then Running(buf, off)
    else
      var r := RunOps(op.body, f.(xi := xi), buf, off);
      if r.Running? then RunFor(op, f, r.buf, r.off, xi + 1) else r
  }

  function RunOps(ops: seq<Op>, f: Frame, buf: bytes, off: nat): WState
    decreases ops, 0
  {
    if ops == [] then Running(buf, off)
    else
      var r := RunOp(ops[0], f, buf, off);
      if r.Running? then RunOps(ops[1..], f, r.buf, r.off) else r
  }

  // ----- Running the statements on a buffer -----

  datatype Status = Go | Back | Bad

  ghost predicate Matches(st: Status, buf: bytes, off: nat, r: WState) {
    match r
    case Running(b, o) => st == Go && buf == b && off == o
    case Returned(b) => st == Back && buf == b
    case Fault => st == Bad
  }

  method Exec(ops: seq<Op>, f: Frame, buf: array<byte>, start: nat) returns (st: Status, off: nat)
    modifies buf
    ensures Matches(st, buf[..], off, RunOps(ops, f, old(buf[..]), start))
    decreases ops, 0
  {
    st, off := Go, start;
    var k := 0;
    while k < |ops| && st == Go
      invariant k <= |ops|
      invariant st == Go ==>
        RunOps(ops, f, old(buf[..]), start) == RunOps(ops[k..], f, buf[..], off)
      invariant st != Go ==>
        Matches(st, buf[..], off, RunOps(ops, f, old(buf[..]), start))
    {
      assert ops[k..][0] == ops[k] && ops[k..][1..] == ops[k + 1..];
      st, off := ExecOp(ops[k], f, buf, off);
      k := k + 1;
    }
  }

  method ExecFor(op: Op, f: Frame, buf: array<byte>, start: nat) returns (st: Status, off: nat)
    requires op.ForList? && op.i < |f.slots| && f.slots[op.i].val.ListV?
    modifies buf
    ensures Matches(st, buf[..], off, RunFor(op, f, old(buf[..]), start, 0))
    decreases op.body, 1
  {
    st, off := Go, start;
    var xi, size := 0, |f.slots[op.i].val.elems|;
    while xi < size && st == Go
      invariant xi <= size
      invariant st == Go ==>
        RunFor(op, f, old(buf[..]), start, 0) == RunFor(op, f, buf[..], off, xi)
      invariant st != Go ==>
        Matches(st, buf[..], off, RunFor(op, f, old(buf[..]), start, 0))
    {
      st, off := Exec(op.body, f.(xi := xi), buf, off);
      xi := xi + 1;
    }
  }

  method ExecOp(op: Op, f: Frame, buf: array<byte>, start: nat) returns (st: Status, off: nat)
    modifies buf
    ensures Matches(st, buf[..], off, RunOp(op, f, old(buf[..]), start))
    decreases op, 0
  {
    st, off := Bad, start;
    match op
    case Check(l) =>
      var n := LenOf(l, f);
      if n.Some? { st := if f.len < off + n.value then Back else Go; }
    case Copy(src, l) =>
      var n, s := LenOf(l, f), SrcBytes(src, f);
      if n.Some? && s.Some? && n.value <= |s.value| && f.base + off + n.value <= buf.Length {
        Memcpy(buf, f.base + off, s.value[..n.value]);
        st := Go;
      }
    case Advance(l) =>
      var n := LenOf(l, f);
      if n.Some? { st, off := Go, off + n.value; }
    case IfFamily(r, v4, v6) =>
      var v := Deref(r, f);
      if v.Some? && v.value.Ip4V? { st, off := Exec(v4, f, buf, off); }
      else if v.Some? && v.value.Ip6V? { st, off := Exec(v6, f, buf, off); }
      else if v.Some? && v.value.IpOtherV? { st := Back; }
    case ForList(i, body) =>
      if i < |f.slots| && f.slots[i].val.ListV? {
        st, off := ExecFor(op, f, buf, off);
      }
    case Call(i, body) =>
      if i < |f.slots| && f.slots[i].val.StructV? && off <= f.len {
        var xret;
        st, xret := Exec(body, Frame(f.slots[i].val.slots, 0, f.base + off, f.len - off), buf, 0);
        off := off + xret;
      }
    case Fail => st := Back;
  }

  // ----- Correctness of the emitted statements -----

  /** `r` is the outcome of writing `e`, or of giving up: returning -1 with every byte
      outside `pos..lim` as it was. `pos` and `lim` are absolute; `off` is relative to the frame. */
  ghost predicate Wrote(r: WState, buf: bytes, pos: nat, lim: nat, off: nat, e: Option<bytes>)
    requires pos <= lim <= |buf|
  {
    if e.Some? && pos + |e.value| <= lim then
      r == Running(Splice(buf, pos, e.value), off + |e.value|)
    else
      r.Returned? && |r.buf| == |buf| && r.buf[..pos] == buf[..pos] && r.buf[lim..] == buf[lim..]
  }

  ghost predicate Inside(f: Frame, buf: bytes, off: nat) {
    off <= f.len && f.base + f.len <= |buf|
  }

  ghost predicate Writes(ops: seq<Op>, f: Frame, buf: bytes, off: nat, e: Option<bytes>)
    requires Inside(f, buf, off)
  {
    Wrote(RunOps(ops, f, buf, off), buf, f.base + off, f.base + f.len, off, e)
  }

  lemma {:induction false} RunConcat(a: seq<Op>, b: seq<Op>, f: Frame, buf: bytes, off: nat)
    ensures var r := RunOps(a, f, buf, off);
            RunOps(a + b, f, buf, off) == if r.Running? then RunOps(b, f, r.buf, r.off) else r
  {
    if a == [] {
      assert a + b == b;
    } else {
      assert (a + b)[0] == a[0] && (a + b)[1..] == a[1..] + b;
      var r := RunOp(a[0], f, buf, off);
      if r.Running? {
        RunConcat(a[1..], b, f, r.buf, r.off);
      }
    }
  }

  lemma RunOne(op: Op, f: Frame, buf: bytes, off: nat)
    ensures RunOps([op], f, buf, off) == RunOp(op, f, buf, off)
  {
    var r := RunOp(op, f, buf, off);
    if r.Running? {
      assert [op][1..] == [];
      assert RunOps([], f, r.buf, r.off) == r;
    }
  }

  /** Outcomes compose: two outcomes in a row are the outcome of the joined encoding. */
  lemma WroteJoin(r: WState, r2: WState, buf: bytes, pos: nat, lim: nat, off: nat, e: Option<bytes>, e2: Option<bytes>)
    requires pos <= lim <= |buf| && Wrote(r, buf, pos, lim, off, e)
    requires r.Running? ==> pos + (r.off - off) <= lim && |r.buf| == |buf|
    requires if r.Running? then Wrote(r2, r.buf, pos + (r.off - off), lim, r.off, e2) else r2 == r
    ensures Wrote(r2, buf, pos, lim, off, Join(e, e2))
  {
    if r.Running? {
      var mid := pos + |e.value|;
      if e2.Some? && mid + |e2.value| <= lim {
        assert Splice(Splice(buf, pos, e.value), mid, e2.value) == Splice(buf, pos, e.value + e2.value);
      } else {
        assert r2.buf[..pos] == r2.buf[..mid][..pos] == r.buf[..mid][..pos] == buf[..pos];
        assert r2.buf[lim..] == r.buf[lim..] == buf[lim..];
      }
    }
  }

  lemma WritesJoin(a: seq<Op>, b: seq<Op>, f: Frame, buf: bytes, off: nat, e: Option<bytes>, e2: Option<bytes>)
    requires Inside(f, buf, off) && Writes(a, f, buf, off, e)
    requires e.Some? && off + |e.value| <= f.len ==>
      Writes(b, f, Splice(buf, f.base + off, e.value), off + |e.value|, e2)
    ensures Writes(a + b, f, buf, off, Join(e, e2))
  {
    hide RunOps;
    RunConcat(a, b, f, buf, off);
    WroteJoin(RunOps(a, f, buf, off), RunOps(a + b, f, buf, off), buf, f.base + off, f.base + f.len, off, e, e2);
  }

  lemma PutWrites(src: Src, len: Len, f: Frame, buf: bytes, off: nat, s: bytes)
    requires Inside(f, buf, off) && SrcBytes(src, f) == Some(s) && LenOf(len, f) == Some(|s|)
    ensures Writes(EmitPut(src, len), f, buf, off, Some(s))
  {
    RunConcat([Check(len)], [Copy(src, len), Advance(len)], f, buf, off);
    assert [Check(len)] + [Copy(src, len), Advance(len)] == EmitPut(src, len);
    RunOne(Check(len), f, buf, off);
    if off + |s| <= f.len {
      var buf' := Splice(buf, f.base + off, s);
      assert s[..|s|] == s;
      RunConcat([Copy(src, len)], [Advance(len)], f, buf, off);
      assert [Copy(src, len)] + [Advance(len)] == [Copy(src, len), Advance(len)];
      RunOne(Copy(src, len), f, buf, off);
      RunOne(Advance(len), f, buf', off);
    }
  }

  /** Two puts in a row, as emitted for strings, addresses, headers and list headers. */
  lemma PutPutWrites(src: Src, len: Len, src2: Src, len2: Len, f: Frame, buf: bytes, off: nat, s: bytes, s2: bytes)
    requires Inside(f, buf, off)
    requires SrcBytes(src, f) == Some(s) && LenOf(len, f) == Some(|s|)
    requires SrcBytes(src2, f) == Some(s2) && LenOf(len2, f) == Some(|s2|)
    ensures Writes(EmitPut(src, len) + EmitPut(src2, len2), f, buf, off, Some(s + s2))
  {
    PutWrites(src, len, f, buf, off, s);
    if off + |s| <= f.len {
      PutWrites(src2, len2, f, Splice(buf, f.base + off, s), off + |s|, s2);
    }
    WritesJoin(EmitPut(src, len), EmitPut(src2, len2), f, buf, off, Some(s), Some(s2));
  }

  lemma StringWrites(r: Ref, v: Value, f: Frame, buf: bytes, off: nat)
    requires Inside(f, buf, off) && Deref(r, f) == Some(v) && TypedBase(String, v)
    ensures Writes(EmitBase(String, r), f, buf, off, EncBase(String, v))
  {
    PutPutWrites(StrLenOf(r), Fixed(4), StrOf(r), StrLen(r), f, buf, off, Net(4, |Chars(v)|), Chars(v));
  }

  lemma AddressWrites(r: Ref, v: Value, f: Frame, buf: bytes, off: nat)
    requires Inside(f, buf, off) && Deref(r, f) == Some(v) && TypedBase(IPAddr, v)
    ensures Writes(EmitBase(IPAddr, r), f, buf, off, EncBase(IPAddr, v))
  {
    RunOne(EmitBase(IPAddr, r)[0], f, buf, off);
    if v.Ip4V? {
      PutPutWrites(FamilyOf(r), Fixed(1), AddrOf(r), Fixed(4), f, buf, off, [AF_INET], v.addr);
    } else if v.Ip6V? {
      PutPutWrites(FamilyOf(r), Fixed(1), AddrOf(r), Fixed(16), f, buf, off, [AF_INET6], v.addr);
    }
  }

  lemma IntWrites(b: Base, r: Ref, v: Value, f: Frame, buf: bytes, off: nat)
    requires Inside(f, buf, off) && Deref(r, f) == Some(v) && IsInt(b) && TypedBase(b, v)
    ensures Writes(EmitBase(b, r), f, buf, off, EncBase(b, v))
  {
    PutWrites(IntOf(r, Width(b)), Fixed(Width(b)), f, buf, off, Net(Width(b), v.n));
  }

  lemma BaseWrites(b: Base, r: Ref, v: Value, f: Frame, buf: bytes, off: nat)
    requires Inside(f, buf, off) && Deref(r, f) == Some(v) && TypedBase(b, v)
    ensures Writes(EmitBase(b, r), f, buf, off, EncBase(b, v))
  {
    match b {
      case Bool => PutWrites(BoolOf(r), Fixed(1), f, buf, off, EncBase(b, v).value);
      case String => StringWrites(r, v, f, buf, off);
      case Xml => StringWrites(r, v, f, buf, off);
      case IPAddr => AddressWrites(r, v, f, buf, off);
      case Uuid => PutWrites(UuidOf(r), Fixed(16), f, buf, off, v.id);
      case Double => RunOne(Fail, f, buf, off);
      case _ => IntWrites(b, r, v, f, buf, off);
    }
  }

  lemma LoopJoin(op: Op, f: Frame, buf: bytes, off: nat, xi: nat, e: Option<bytes>, e2: Option<bytes>)
    requires Inside(f, buf, off) && op.ForList? && op.i < |f.slots| && f.slots[op.i].val.ListV?
    requires xi < |f.slots[op.i].val.elems|
    requires Writes(op.body, f.(xi := xi), buf, off, e)
    requires e.Some? && off + |e.value| <= f.len ==>
      Wrote(RunFor(op, f, Splice(buf, f.base + off, e.value), off + |e.value|, xi + 1),
            Splice(buf, f.base + off, e.value), f.base + off + |e.value|, f.base + f.len, off + |e.value|, e2)
    ensures Wrote(RunFor(op, f, buf, off, xi), buf, f.base + off, f.base + f.len, off, Join(e, e2))
  {
    WroteJoin(RunOps(op.body, f.(xi := xi), buf, off), RunFor(op, f, buf, off, xi),
              buf, f.base + off, f.base + f.len, off, e, e2);
  }

  lemma LoopEnds(i: nat, body: seq<Op>, f: Frame, buf: bytes, off: nat)
    requires Inside(f, buf, off) && i < |f.slots| && f.slots[i].val.ListV?
    ensures Wrote(RunFor(ForList(i, body), f, buf, off, |f.slots[i].val.elems|),
                  buf, f.base + off, f.base + f.len, off, Some([]))
  {
    assert Splice(buf, f.base + off, []) == buf;
  }

  lemma {:induction false} ElemsWrite(b: Base, i: nat, f: Frame, buf: bytes, off: nat, xi: nat)
    requires Inside(f, buf, off) && i < |f.slots| && Typed(TList(b), f.slots[i].val)
    requires xi <= |f.slots[i].val.elems|
    ensures Wrote(RunFor(ForList(i, EmitBase(b, Elem(i))), f, buf, off, xi),
                  buf, f.base + off, f.base + f.len, off, EncElems(b, f.slots[i].val.elems[xi..]))
    decreases |f.slots[i].val.elems| - xi
  {
    hide RunOps, RunOp, RunFor, EmitBase, Wrote, EncBase, TypedBase;
    var elems := f.slots[i].val.elems;
    if xi == |elems| {
      assert elems[xi..] == [];
      LoopEnds(i, EmitBase(b, Elem(i)), f, buf, off);
    } else {
      assert elems[xi..][0] == elems[xi] && elems[xi..][1..] == elems[xi + 1..];
      BaseWrites(b, Elem(i), elems[xi], f.(xi := xi), buf, off);
      var e := EncBase(b, elems[xi]);
      if e.Some? && off + |e.value| <= f.len {
        ElemsWrite(b, i, f, Splice(buf, f.base + off, e.value), off + |e.value|, xi + 1);
      }
      LoopJoin(ForList(i, EmitBase(b, Elem(i))), f, buf, off, xi, e, EncElems(b, elems[xi + 1..]));
    }
  }

  lemma ListWrites(b: Base, i: nat, f: Frame, buf: bytes, off: nat)
    requires Inside(f, buf, off) && i < |f.slots| && Typed(TList(b), f.slots[i].val)
    ensures Writes(EmitValue(TList(b), i), f, buf, off, Enc(TList(b), f.slots[i].val))
  {
    hide RunOps, EmitBase;
    var elems := f.slots[i].val.elems;
    var head := [BaseWire(b)] + Net(4, |elems|);
    var loop := ForList(i, EmitBase(b, Elem(i)));
    PutPutWrites(Lit([BaseWire(b)]), Fixed(1), CountOf(i), Fixed(4), f, buf, off, [BaseWire(b)], Net(4, |elems|));
    if off + |head| <= f.len {
      var buf' := Splice(buf, f.base + off, head);
      RunOne(loop, f, buf', off + |head|);
      assert elems[0..] == elems;
      ElemsWrite(b, i, f, buf', off + |head|, 0);
    }
    WritesJoin(EmitPut(Lit([BaseWire(b)]), Fixed(1)) + EmitPut(CountOf(i), Fixed(4)), [loop],
               f, buf, off, Some(head), EncElems(b, elems));
  }

  /** A nested call writes into the rest of the caller's slice and moves the caller on by what it wrote. */
  lemma CallWrites(body: seq<Op>, i: nat, f: Frame, buf: bytes, off: nat, e: Option<bytes>)
    requires Inside(f, buf, off) && i < |f.slots| && f.slots[i].val.StructV?
    requires Writes(body, Frame(f.slots[i].val.slots, 0, f.base + off, f.len - off), buf, 0, e)
    ensures Writes([Call(i, body)], f, buf, off, e)
  {
    RunOne(Call(i, body), f, buf, off);
  }

  lemma {:induction false} ValueWrites(t: Type, i: nat, f: Frame, buf: bytes, off: nat)
    requires Inside(f, buf, off) && GoodType(t) && i < |f.slots| && Typed(t, f.slots[i].val)
    ensures Writes(EmitValue(t, i), f, buf, off, Enc(t, f.slots[i].val))
    decreases t, 2
  {
    var v := f.slots[i].val;
    match t {
      case TBase(b) => BaseWrites(b, Member(i), v, f, buf, off);
      case TEnum => BaseWrites(I32, Member(i), v, f, buf, off);
      case TList(b) => ListWrites(b, i, f, buf, off);
      case TStruct(_) =>
        StructWrites(t, v, Frame(v.slots, 0, f.base + off, f.len - off), buf, 0);
        CallWrites(EmitStruct(t), i, f, buf, off, Enc(t, v));
    }
  }

  lemma {:induction false} FieldWrites(t: Type, v: Value, i: nat, f: Frame, buf: bytes, off: nat)
    requires Inside(f, buf, off) && GoodType(t) && t.TStruct? && Typed(t, v) && f.slots == v.slots
    requires i < |t.fields|
    ensures Writes(EmitField(t, i), f, buf, off, EncField(t.fields[i], v.slots[i].val))
    decreases t, 0, 0
  {
    hide Writes, EmitValue, Enc, Big;
    var ty := t.fields[i].ty;
    var key := Net(2, t.fields[i].key);
    var head := FieldHeader(t.fields[i]);
    var puts := EmitPut(Lit([WireType(ty)]), Fixed(1)) + EmitPut(Lit(key), Fixed(2));
    PutPutWrites(Lit([WireType(ty)]), Fixed(1), Lit(key), Fixed(2), f, buf, off, [WireType(ty)], key);
    if off + |head| <= f.len {
      ValueWrites(ty, i, f, Splice(buf, f.base + off, head), off + |head|);
    }
    WritesJoin(puts, EmitValue(ty, i), f, buf, off, Some(head), Enc(ty, v.slots[i].val));
  }

  lemma NothingWrites(f: Frame, buf: bytes, off: nat)
    requires Inside(f, buf, off)
    ensures Writes([], f, buf, off, Some([]))
  {
    assert Splice(buf, f.base + off, []) == buf;
  }

  lemma {:induction false} FieldsWrite(t: Type, v: Value, i: nat, f: Frame, buf: bytes, off: nat)
    requires Inside(f, buf, off) && GoodType(t) && t.TStruct? && Typed(t, v) && f.slots == v.slots
    requires i <= |t.fields|
    ensures Writes(EmitFrom(t, i), f, buf, off, EncFrom(t, v, i))
    decreases t, 0, 1 + |t.fields| - i
  {
    hide Writes, EmitField, EncField;
    if i == |t.fields| {
      NothingWrites(f, buf, off);
    } else {
      FieldWrites(t, v, i, f, buf, off);
      var e := EncField(t.fields[i], v.slots[i].val);
      if e.Some? && off + |e.value| <= f.len {
        FieldsWrite(t, v, i + 1, f, Splice(buf, f.base + off, e.value), off + |e.value|);
      }
      WritesJoin(EmitField(t, i), EmitFrom(t, i + 1), f, buf, off, e, EncFrom(t, v, i + 1));
    }
  }

  lemma {:induction false} StructWrites(t: Type, v: Value, f: Frame, buf: bytes, off: nat)
    requires Inside(f, buf, off) && GoodType(t) && t.TStruct? && Typed(t, v) && f.slots == v.slots
    ensures Writes(EmitStruct(t), f, buf, off, Enc(t, v))
    decreases t, 1
  {
    FieldsWrite(t, v, 0, f, buf, off);
    var e := EncFrom(t, v, 0);
    if e.Some? && off + |e.value| <= f.len {
      PutWrites(Lit([T_STOP]), Fixed(1), f, Splice(buf, f.base + off, e.value), off + |e.value|, [T_STOP]);
    }
    WritesJoin(EmitFrom(t, 0), EmitPut(Lit([T_STOP]), Fixed(1)), f, buf, off, e, Some([T_STOP]));
  }

  lemma SandeshWrites(name: bytes, t: Type, v: Value, f: Frame, buf: bytes)
    requires Inside(f, buf, 0) && GoodType(t) && t.TStruct? && Typed(t, v) && f.slots == v.slots
    requires |name| < 128 * Pow256(3)
    ensures Writes(EmitSandesh(name, t), f, buf, 0, EncSandesh(name, t, v))
  {
    var len := Net(4, |name|);
    var puts := EmitPut(Lit(len), Fixed(4)) + EmitPut(Lit(name), Fixed(|name|));
    PutPutWrites(Lit(len), Fixed(4), Lit(name), Fixed(|name|), f, buf, 0, len, name);
    if |len + name| <= f.len {
      var buf' := Splice(buf, f.base, len + name);
      StructWrites(t, v, f, buf', |len + name|);
    }
    WritesJoin(puts, EmitStruct(t), f, buf, 0, Some(len + name), Enc(t, v));
  }

  // ----- The two entry points -----

  /** `X_write_binary_to_buffer`: runs the emitted statements on the first `buflen` bytes. */
  method WriteSandesh(name: bytes, t: Type, v: Value, buf: array<byte>, buflen: nat) returns (ret: int)
    requires GoodType(t) && t.TStruct? && Typed(t, v) && |name| < 128 * Pow256(3) && buflen <= buf.Length
    modifies buf
    ensures var e := EncSandesh(name, t, v);
            if e.Some? && |e.value| <= buflen
            then ret == |e.value| && buf[..ret] == e.value && buf[ret..] == old(buf[ret..])
            else ret == -1 && buf[buflen..] == old(buf[buflen..])
  {
    var f := Frame(v.slots, 0, 0, buflen);
    SandeshWrites(name, t, v, f, buf[..]);
    var st, off := Exec(EmitSandesh(name, t), f, buf, 0);
    ret := if st == Go then off else -1;
  }

  method WriteStruct(t: Type, v: Value, buf: array<byte>, buflen: nat) returns (ret: int)
    requires GoodType(t) && t.TStruct? && Typed(t, v) && buflen <= buf.Length
    modifies buf
    ensures var e := Enc(t, v);
            if e.Some? && |e.value| <= buflen
            then ret == |e.value| && buf[..ret] == e.value && buf[ret..] == old(buf[ret..])
            else ret == -1 && buf[buflen..] == old(buf[buflen..])
  {
    var f := Frame(v.slots, 0, 0, buflen);
    StructWrites(t, v, f, buf[..], 0);
    var st, off := Exec(EmitStruct(t), f, buf, 0);
    ret := if st == Go then off else -1;
  }
}
