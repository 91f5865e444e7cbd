/**
 The emitted buffer reader: a loop that reads a field header, dispatches on the
 field id, and either runs the statements emitted for that field or skips it.
 */
module Reader {
  import opened Wrappers
  import opened Wire
  import opened Schema

  // ----- Emitted statements -----

  datatype ROp =
    | Fetch(n: nat)                      // bounds check, memcpy to a temporary, Xoffset += n
    | SetInt(w: nat, signed: bool)       // name = ntohs / ntohl / os_get_value64 (temporary)
    | SetBool
    | SetUuid
    | SetString                          // the temporary holds the length
    | SetAddress                         // the temporary holds the family
    | SetList(body: seq<ROp>)            // the temporary holds the count
    | SetStruct(reader: ReaderCode)      // os_zalloc, then the nested read function
    | Fail                               // return -1

  /** One `case` of the switch on the field id. */
  datatype Case = Case(key: int, wire: byte, slot: nat, body: seq<ROp>)

  /** A read function: its switch and the zeroed struct it fills. */
  datatype ReaderCode = ReaderCode(cases: seq<Case>, zero: seq<Slot>)

  // ----- The generator -----

  function EmitReadBase(b: Base): seq<ROp> {
    match b
    case Bool => [Fetch(1), SetBool]
    case String => [Fetch(4), SetString]
    case Xml => [Fetch(4), SetString]
    case IPAddr => [Fetch(1), SetAddress]
    case Uuid => [Fetch(16), SetUuid]
    case Double => [Fail]
    case _ => [Fetch(Width(b)), SetInt(Width(b), Signed(b))]
  }

  function EmitRead(t: Type): seq<ROp> {
    match t
    case TBase(b) => EmitReadBase(b)
    case TEnum => EmitReadBase(I32)
    case TList(b) => [Fetch(1), Fetch(4), SetList(EmitReadBase(b))]
    case TStruct(fs) => [SetStruct(EmitReader(t))]
  }

  function EmitReader(t: Type): ReaderCode
    requires t.TStruct?
    decreases t, 0
  {
    ReaderCode(
      seq(|t.fields|, i requires 0 <= i < |t.fields| =>
        Case(t.fields[i].key, WireType(t.fields[i].ty), i, EmitRead(t.fields[i].ty))),
      seq(|t.fields|, i requires 0 <= i < |t.fields| => Slot(false, Zero(t.fields[i].ty))))
  }

  /** A member of a struct fresh from os_zalloc. */
  function Zero(t: Type): Value {
    match t
    case TBase(b) =>
      (match b
       case Bool => BoolV(0)
       case String => StrV(None)
       case Xml => StrV(None)
       case IPAddr => IpOtherV(0)
       case Uuid => UuidV(seq(16, _ => 0))
       case Double => DoubleV
       case _ => IntV(0))
    case TEnum => IntV(0)
    case TList(_) => ListV([])
    case TStruct(_) => NullV
  }

  // ----- Skipping a field the reader does not know -----

  /** Short: returned -1. Derailed: the C code goes on with bytes it never set. */
  datatype Skipped = Took(n: nat) | Short | Derailed

  /** thrift_binary_protocol_skip_from_buffer. A T_IPADDR falls to the default case, which skips
      nothing; the element type of a list takes in three bytes that were never written. */
  function Skip(wire: byte, s: bytes): (r: Skipped)
    ensures r.Took? ==> r.n <= |s|
    decreases |s|, 1
  {
    if wire in {2, 3} then Fixed(1, s)
    else if wire in {6, 19} then Fixed(2, s)
    else if wire in {8, 20, 22} then Fixed(4, s)
    else if wire in {4, 9, 10} then Fixed(8, s)
    else if wire == 23 then Fixed(16, s)
    else if wire in {11, 21} then
      if |s| < 4 then Short
      else
        var n := FromBits(4, true, FromBig(s[..4]));
        if n <= 0 then Took(4) else if 4 + n > |s| then Short else Took(4 + n)
    else if wire == T_STRUCT then SkipFields(s, 0)
    else if wire == T_LIST then
      if |s| < 5 then Short
      else
        var n := FromBits(4, true, FromBig(s[1..5]));
        if n < 0 then Short else if n == 0 then Took(5) else Derailed
    else Took(0)
  }

  function Fixed(n: nat, s: bytes): (r: Skipped)
    ensures r.Took? ==> r.n <= |s|
  {
    if n > |s| then Short else Took(n)
  }

  /** A nested -1 is added to the unsigned total unchecked, so the loop goes on one byte back,
      inside the header of the field it could not skip. */
  function SkipFields(s: bytes, off: nat): (r: Skipped)
    requires off <= |s|
    ensures r.Took? ==> off < r.n <= |s|
    decreases |s| - off, 0
  {
    if off == |s| then Short
    else if s[off] == T_STOP then Took(off + 1)
    else if |s| - off < 3 then Short
    else
      var r := Skip(s[off], s[off + 3..]);
      if r.Took? then SkipFields(s, off + 3 + r.n)
      else if r.Short? then SkipFields(s, off + 2) else Derailed
  }

  // ----- Meaning of the emitted statements -----

  /** Reject: returned -1. Derail: the C code goes on with bytes it never set. */
  datatype Read<T> = Ok(off: nat, val: T) | Reject | Derail

  function RunR(ops: seq<ROp>, s: bytes, off: nat, tmp: bytes, dst: Value): (r: Read<Value>)
    requires off <= |s|
    ensures r.Ok? ==> off <= r.off <= |s|
    decreases ops, 0
  {
    if ops == [] then Ok(off, dst)
    else if ops[0].Fetch? then
      if |s| < off + ops[0].n then Reject
      else RunR(ops[1..], s, off + ops[0].n, s[off..off + ops[0].n], dst)
    else
      var r := Assign(ops[0], s, off, tmp);
      if r.Ok? then RunR(ops[1..], s, r.off, tmp, r.val) else r
  }

  /** A statement that gives the field its value. */
  function Assign(op: ROp, s: bytes, off: nat, tmp: bytes): (r: Read<Value>)
    requires off <= |s| && !op.Fetch?
    ensures r.Ok? ==> off <= r.off <= |s|
    decreases op, 0
  {
    match op
    case SetInt(w, signed) =>
      if |tmp| == w > 0 then Ok(off, IntV(FromBits(w, signed, FromBig(tmp)))) else Derail
    case SetBool => if |tmp| == 1 then Ok(off, BoolV(if tmp[0] != 0 then 1 else 0)) else Derail
    case SetUuid => Ok(off, UuidV(tmp))
    case SetString =>
      var n := FromBits(4, true, FromBig(tmp));
      if n <= 0 then Ok(off, StrV(None))
      else if |s| < off + n then Reject
      else Ok(off + n, StrV(Some(s[off..off + n])))
    case SetAddress =>
      if tmp == [AF_INET] then
        if |s| < off + 4 then Reject else Ok(off + 4, Ip4V(s[off..off + 4]))
      else if tmp == [AF_INET6] then
        if |s| < off + 16 then Reject else Ok(off + 16, Ip6V(s[off..off + 16]))
      else Reject
    case SetList(body) =>
      var r := RunElems(op, s, off, FromBig(tmp), []);
      if r.Ok? then Ok(r.off, ListV(r.val)) else if r.Reject? then Reject else Derail
    case SetStruct(reader) =>
      var r := ReadFields(reader, s[off..], 0, reader.zero);
      if r.Ok? then Ok(off + r.off, StructV(r.val)) else if r.Reject? then Reject else Derail
    case Fail => Reject
  }

  function RunElems(op: ROp, s: bytes, off: nat, count: nat, acc: seq<Value>): (r: Read<seq<Value>>)
    requires off <= |s| && op.SetList?
    ensures r.Ok? ==> off <= r.off <= |s|
    decreases op.body, 1, count
  {
    if count == 0 then Ok(off, acc)
    else
      var r := RunR(op.body, s, off, [], NullV);
      if r.Ok? then RunElems(op, s, r.off, count - 1, acc + [r.val])
      else if r.Reject? then Reject else Derail
  }

  /** switch (Xfid): the index of the case with this label, or the number of cases. */
  function FindCase(cases: seq<Case>, key: int): (k: nat)
    ensures k <= |cases|
    ensures k < |cases| ==> cases[k].key == key
    ensures forall j | 0 <= j < k :: cases[j].key != key
  {
    if cases == [] then 0 else if cases[0].key == key then 0
    else
      var k := FindCase(cases[1..], key);
      1 + k
  }

  /** The field loop, from offset `off` with the struct filled so far. */
  function ReadFields(reader: ReaderCode, s: bytes, off: nat, slots: seq<Slot>): (r: Read<seq<Slot>>)
    requires off <= |s|
    ensures r.Ok? ==> off < r.off <= |s|
    decreases reader, 1, |s| - off
  {
    if off == |s| then Reject
    else if s[off] == T_STOP then Ok(off + 1, slots)
    else if |s| < off + 3 then Reject
    else
      var k := FindCase(reader.cases, FromBits(2, true, FromBig(s[off + 1..off + 3])));
      if k < |reader.cases| && reader.cases[k].wire == s[off] then
        var r := RunR(reader.cases[k].body, s, off + 3, [], NullV);
        if r.Ok? then
          if reader.cases[k].slot < |slots|
          then ReadFields(reader, s, r.off, slots[reader.cases[k].slot := Slot(true, r.val)])
          else Derail
        else if r.Reject? then Reject else Derail
      else
        var r := Skip(s[off], s[off + 3..]);
        if r.Took? then ReadFields(reader, s, off + 3 + r.n, slots)
        else if r.Short? then Reject else Derail
  }

  /** `X_read_binary_from_buffer` of a buffer sandesh: the name is read and thrown away. */
  function ReadSandesh(reader: ReaderCode, s: bytes): Read<seq<Slot>> {
    var r := RunR(EmitReadBase(String), s, 0, [], NullV);
    if r.Ok? then ReadFields(reader, s, r.off, reader.zero) else if r.Reject? then Reject else Derail
  }

  // ----- The same code as loops -----

  /** The emitted `while (1)` loop computes ReadFields. */
  method ReadLoop(reader: ReaderCode, s: bytes, start: nat) returns (r: Read<seq<Slot>>)
    requires start <= |s|
    ensures r == ReadFields(reader, s, start, reader.zero)
    decreases reader, 1
  {
    hide RunR, Skip, FromBig, FromBits;
    var off, slots := start, reader.zero;
    while true
      invariant start <= off <= |s|
      invariant ReadFields(reader, s, start, reader.zero) == ReadFields(reader, s, off, slots)
      decreases |s| - off
    {
      if |s| < off + 1 { return Reject; }
      var ftype := s[off];
      if ftype == T_STOP { return Ok(off + 1, slots); }
      if |s| < off + 3 { return Reject; }
      var fid := FromBits(2, true, FromBig(s[off + 1..off + 3]));
      var k := FindCase(reader.cases, fid);
      if k < |reader.cases| && reader.cases[k].wire == ftype {
        var f := ReadField(reader.cases[k].body, s, off + 3);
        if f.Reject? { return Reject; }
        if f.Derail? || reader.cases[k].slot >= |slots| { return Derail; }
        off, slots := f.off, slots[reader.cases[k].slot := Slot(true, f.val)];
      } else {
        var skipped := Skip(ftype, s[off + 3..]);
        if skipped.Short? { return Reject; }
        if skipped.Derailed? { return Derail; }
        off := off + 3 + skipped.n;
      }
    }
  }

  /** The statements emitted for one field, run in order. */
  method ReadField(ops: seq<ROp>, s: bytes, start: nat) returns (r: Read<Value>)
    requires start <= |s|
    ensures r == RunR(ops, s, start, [], NullV)
    decreases ops, 0
  {
    var off, tmp, dst := start, [], NullV;
    for k := 0 to |ops|
      invariant start <= off <= |s|
      invariant RunR(ops, s, start, [], NullV) == RunR(ops[k..], s, off, tmp, dst)
    {
      assert ops[k..][0] == ops[k] && ops[k..][1..] == ops[k + 1..];
      if ops[k].Fetch? {
        if |s| < off + ops[k].n { return Reject; }
        tmp, off := s[off..off + ops[k].n], off + ops[k].n;
      } else {
        var a := ReadAssign(ops[k], s, off, tmp);
        if !a.Ok? { return a; }
        off, dst := a.off, a.val;
      }
    }
    return Ok(off, dst);
  }

  method ReadAssign(op: ROp, s: bytes, start: nat, tmp: bytes) returns (r: Read<Value>)
    requires start <= |s| && !op.Fetch?
    ensures r == Assign(op, s, start, tmp)
    decreases op, 0
  {
    if op.SetList? {
      var off, elems, size := start, [], FromBig(tmp);
      for xi := 0 to size
        invariant start <= off <= |s|
        invariant RunElems(op, s, start, size, []) == RunElems(op, s, off, size - xi, elems)
      {
        var e := ReadField(op.body, s, off);
        if e.Reject? { return Reject; }
        if e.Derail? { return Derail; }
        off, elems := e.off, elems + [e.val];
      }
      return Ok(off, ListV(elems));
    } else if op.SetStruct? {
      var nested := ReadLoop(op.reader, s[start..], 0);
      if nested.Reject? { return Reject; }
      if nested.Derail? { return Derail; }
      return Ok(start + nested.off, StructV(nested.val));
    } else {
      return Assign(op, s, start, tmp);
    }
  }
}
