/**
 Building a record type field by field, and the fingerprint of a type.
 */
module Record {
  import opened Material
  import Md5

  predicate Sorted(s: seq<Member>) {
    forall i, j | 0 <= i < j < |s| :: s[i].key < s[j].key
  }

  function Keys(s: seq<Member>): set<int> {
    set m | m in s :: m.key
  }

  /** Where a key belongs in a sorted list, and the list with a member put there. */
  function Insert(s: seq<Member>, e: Member): seq<Member> {
    if s == [] then [e]
    else if e.key < s[0].key then [e] + s
    else if e.key == s[0].key then s
    else [s[0]] + Insert(s[1..], e)
  }

  lemma {:induction false} InsertAt(s: seq<Member>, e: Member, k: nat)
    requires k <= |s|
    requires forall i | 0 <= i < k :: s[i].key < e.key
    requires forall i | k <= i < |s| :: e.key <= s[i].key
    ensures Insert(s, e) == if k < |s| && s[k].key == e.key then s else s[..k] + [e] + s[k..]
  {
    if k == 0 {
      assert s[..0] + [e] + s[0..] == [e] + s;
    } else {
      InsertAt(s[1..], e, k - 1);
      ConsSplit(s, e, k);
      assert k < |s| ==> s[1..][k - 1] == s[k];
    }
  }

  lemma ConsSplit(s: seq<Member>, e: Member, k: nat)
    requires 0 < k <= |s|
    ensures [s[0]] + s[1..] == s
    ensures [s[0]] + (s[1..][..k - 1] + [e] + s[1..][k - 1..]) == s[..k] + [e] + s[k..]
  {
    var t := s[1..];
    assert t[k - 1..] == s[k..] && [s[0]] + t[..k - 1] == s[..k];
  }

  /** std::lower_bound: the first index whose key is not below `key`. */
  method LowerBound(s: seq<Member>, key: int) returns (k: nat)
    requires Sorted(s)
    ensures k <= |s|
    ensures forall i | 0 <= i < k :: s[i].key < key
    ensures forall i | k <= i < |s| :: key <= s[i].key
  {
    k := 0;
    var hi := |s|;
    while k < hi
      invariant 0 <= k <= hi <= |s|
      invariant forall i | 0 <= i < k :: s[i].key < key
      invariant forall i | hi <= i < |s| :: key <= s[i].key
    {
      var mid := (k + hi) / 2;
      if s[mid].key < key { k := mid + 1; } else { hi := mid; }
    }
  }

  /** std::upper_bound: the first index whose key is above `key`. */
  method UpperBound(s: seq<Member>, key: int) returns (k: nat)
    requires Sorted(s)
    ensures k <= |s|
    ensures forall i | 0 <= i < k :: s[i].key <= key
    ensures forall i | k <= i < |s| :: key < s[i].key
  {
    k := 0;
    var hi := |s|;
    while k < hi
      invariant 0 <= k <= hi <= |s|
      invariant forall i | 0 <= i < k :: s[i].key <= key
      invariant forall i | hi <= i < |s| :: key < s[i].key
    {
      var mid := (k + hi) / 2;
      if key < s[mid].key { hi := mid; } else { k := mid + 1; }
    }
  }

  /** t_struct and t_sandesh as containers of fields. */
  class RecordType {
    var name: string
    var members: seq<Member>
    var inIdOrder: seq<Member>

    ghost predicate Valid()
      reads this
    {
      inIdOrder == Ordered(members)
    }

    constructor (name: string)
      ensures Valid() && members == [] && this.name == name
    {
      this.name := name;
      members := [];
      inIdOrder := [];
    }

    method Append(elem: Member) returns (ok: bool)
      requires Valid()
      modifies this`members, this`inIdOrder
      ensures Valid() && members == old(members) + [elem]
      ensures ok <==> elem.key !in Keys(old(members))
      ensures !ok ==> inIdOrder == old(inIdOrder)
    {
      hide Insert, Keys;
      OrderedSorted(members);
      OrderedKeys(members);
      OrderedAppend(members, elem);
      members := members + [elem];
      ok, inIdOrder := InsertInOrder(inIdOrder, elem);
    }

    /** get_fingerprint_material */
    method FingerprintMaterial() returns (rv: string)
      requires Valid()
      ensures rv == Text(TRecord(name, Ordered(members)))
    {
      rv := PrintMembers(TRecord(name, inIdOrder));
    }
  }

  /** equal_range on the keys, then an insert unless the range is occupied. */
  method InsertInOrder(s: seq<Member>, e: Member) returns (ok: bool, r: seq<Member>)
    requires Sorted(s)
    ensures r == Insert(s, e)
    ensures ok <==> e.key !in Keys(s)
    ensures !ok ==> r == s
  {
    hide Insert, Keys;
    var lo := LowerBound(s, e.key);
    var hi := UpperBound(s, e.key);
    InsertAt(s, e, lo);
    Found(s, e.key, lo);
    assert (hi < |s| ==> e.key < s[hi].key) && (lo < |s| ==> e.key <= s[lo].key);
    if lo != hi {
      return false, s;
    }
    return true, s[..hi] + [e] + s[hi..];
  }

  /** The loop that accumulates the members' material. */
  method PrintMembers(t: Ty) returns (rv: string)
    requires t.TRecord?
    ensures rv == Text(t)
  {
    hide PrintInt;
    rv := "{";
    for i := 0 to |t.members|
      invariant rv + TextFrom(t, i) == "{" + TextFrom(t, 0)
    {
      var m := t.members[i];
      var text := PrintInt(m.key) + ":" + (if m.req == Optional then "opt-" else "") + Text(m.ty);
      Accumulate(rv, text, TextFrom(t, i + 1));
      rv := rv + text;
      rv := rv + ";";
    }
    assert rv + "" == rv;
    rv := rv + "}";
  }

  lemma Accumulate(rv: string, text: string, rest: string)
    ensures rv + text + ";" + rest == rv + (text + ";" + rest)
  {
  }

  /** The key-ordered list after a sequence of appends. */
  function Ordered(elems: seq<Member>): seq<Member> {
    if elems == [] then [] else Insert(Ordered(elems[..|elems| - 1]), elems[|elems| - 1])
  }

  lemma OrderedAppend(elems: seq<Member>, e: Member)
    ensures Ordered(elems + [e]) == Insert(Ordered(elems), e)
  {
    assert (elems + [e])[..|elems|] == elems;
  }

  /** `m` is the first of `elems` with its key. */
  ghost predicate First(elems: seq<Member>, m: Member) {
    exists i :: FirstAt(elems, i) && elems[i] == m
  }

  ghost predicate FirstAt(elems: seq<Member>, i: int) {
    0 <= i < |elems| && forall j | 0 <= j < i :: elems[j].key != elems[i].key
  }

  /** A binary search that ends at `k` tells whether the key is there. */
  lemma Found(s: seq<Member>, key: int, k: nat)
    requires Sorted(s) && k <= |s|
    requires forall i | 0 <= i < k :: s[i].key < key
    requires forall i | k <= i < |s| :: key <= s[i].key
    ensures key in Keys(s) <==> k < |s| && s[k].key == key
  {
    if k < |s| && s[k].key == key {
      assert s[k] in s;
    }
  }

  lemma {:induction false} InsertSorted(s: seq<Member>, e: Member)
    requires Sorted(s)
    ensures Sorted(Insert(s, e))
    ensures forall m :: m in Insert(s, e) <==> m in s || (m == e && e.key !in Keys(s))
  {
    if s == [] {
    } else if s[0].key < e.key {
      InsertSorted(s[1..], e);
      assert s == [s[0]] + s[1..];
      var r := Insert(s[1..], e);
      forall m | m in r ensures s[0].key < m.key {
      }
    } else if e.key == s[0].key {
      assert s[0] in s;
    } else {
      assert e.key !in Keys(s);
    }
  }

  lemma {:induction false} OrderedSorted(elems: seq<Member>)
    ensures Sorted(Ordered(elems))
    ensures forall i, j | 0 <= i < j < |Ordered(elems)| :: Ordered(elems)[i].key < Ordered(elems)[j].key
  {
    if elems != [] {
      OrderedSorted(elems[..|elems| - 1]);
      InsertSorted(Ordered(elems[..|elems| - 1]), elems[|elems| - 1]);
    }
  }

  lemma {:induction false} OrderedKeys(elems: seq<Member>)
    ensures Keys(Ordered(elems)) == Keys(elems)
  {
    if elems != [] {
      var n := |elems| - 1;
      var before, e := elems[..n], elems[n];
      OrderedKeys(before);
      OrderedSorted(before);
      assert elems == before + [e];
      var r := Ordered(before);
      InsertSorted(r, e);
      forall k ensures k in Keys(Insert(r, e)) <==> k in Keys(r) || k == e.key {
        if k in Keys(r) {
          var m :| m in r && m.key == k;
          assert m in Insert(r, e);
        } else if k == e.key {
          assert e in Insert(r, e);
        }
      }
    }
  }

  /** After any appends the list holds exactly the first member given for each key. */
  lemma {:induction false} OrderedIsFirsts(elems: seq<Member>, m: Member)
    ensures m in Ordered(elems) <==> First(elems, m)
  {
    if elems != [] {
      var n := |elems| - 1;
      OrderedIsFirsts(elems[..n], m);
      OrderedSorted(elems[..n]);
      OrderedKeys(elems[..n]);
      InsertSorted(Ordered(elems[..n]), elems[n]);
      FirstStep(elems, m);
    }
  }

  lemma FirstStep(elems: seq<Member>, m: Member)
    requires elems != []
    ensures var n := |elems| - 1;
            First(elems, m) <==> First(elems[..n], m) || (m == elems[n] && m.key !in Keys(elems[..n]))
  {
    var n := |elems| - 1;
    if First(elems[..n], m) {
      var i :| FirstAt(elems[..n], i) && elems[..n][i] == m;
      assert FirstAt(elems, i);
    }
    if First(elems, m) {
      var i :| FirstAt(elems, i) && elems[i] == m;
      if i < n {
        assert FirstAt(elems[..n], i);
      }
    }
    if m == elems[n] && m.key !in Keys(elems[..n]) {
      forall j | 0 <= j < n ensures elems[j].key != m.key {
        assert elems[..n][j] in elems[..n];
      }
      assert FirstAt(elems, n);
    }
  }

  // ----- Order of declaration does not matter -----

  lemma {:induction false} SortedUnique(s: seq<Member>, t: seq<Member>)
    requires Sorted(s) && Sorted(t) && forall m :: m in s <==> m in t
    ensures s == t
  {
    assert (s != [] ==> s[0] in t) && (t != [] ==> t[0] in s);
    if s != [] {
      assert s[0] in t && (t == [] || t[0] in s);
      assert s[0] == t[0];
      forall m ensures m in s[1..] <==> m in t[1..] {
        assert m in s <==> m == s[0] || m in s[1..];
        assert m in t <==> m == t[0] || m in t[1..];
      }
      SortedUnique(s[1..], t[1..]);
      assert s == [s[0]] + s[1..] && t == [t[0]] + t[1..];
    }
  }

  ghost predicate DistinctKeys(s: seq<Member>) {
    forall i, j | 0 <= i < j < |s| :: s[i].key != s[j].key
  }

  lemma AllFirst(s: seq<Member>, m: Member)
    requires DistinctKeys(s)
    ensures First(s, m) <==> m in s
  {
    if m in s {
      var i :| 0 <= i < |s| && s[i] == m;
      assert FirstAt(s, i);
    }
  }

  /** Permuting appends with distinct keys changes neither the ordered list nor the material. */
  lemma OrderIrrelevant(name: string, s: seq<Member>, t: seq<Member>)
    requires DistinctKeys(s) && DistinctKeys(t) && multiset(s) == multiset(t)
    ensures Ordered(s) == Ordered(t)
    ensures Text(TRecord(name, Ordered(s))) == Text(TRecord(name, Ordered(t)))
    ensures Fingerprint(TRecord(name, Ordered(s))) == Fingerprint(TRecord(name, Ordered(t)))
  {
    forall m ensures m in Ordered(s) <==> m in Ordered(t) {
      OrderedIsFirsts(s, m);
      OrderedIsFirsts(t, m);
      AllFirst(s, m);
      AllFirst(t, m);
      assert m in s <==> m in multiset(s);
      assert m in t <==> m in multiset(t);
    }
    OrderedSorted(s);
    OrderedSorted(t);
    SortedUnique(Ordered(s), Ordered(t));
  }

  // ----- Fingerprints -----

  function AsBytes(s: string): (b: seq<Md5.Byte>)
    ensures |b| == |s|
  {
    seq(|s|, i requires 0 <= i < |s| => (s[i] as int % 256) as Md5.Byte)
  }

  function Fingerprint(t: Ty): seq<Md5.Byte> {
    Md5.MD5(AsBytes(Text(t)))
  }

  /** t_type::generate_fingerprint */
  method GenerateFingerprint(t: Ty) returns (fingerprint: seq<Md5.Byte>)
    requires |Text(t)| < 0x8000_0000
    ensures fingerprint == Fingerprint(t)
  {
    hide Md5.MD5, Md5.Padded, Md5.Absorb, Md5.Counts, Md5.Whole, Md5.Partial, Text, AsBytes;
    var material := Text(t);
    var ctx := new Md5.State();
    ctx.Append(AsBytes(material));
    assert [] + AsBytes(material) == AsBytes(material);
    fingerprint := ctx.Finish();
  }

  /** Two byte messages with one digest. */
  predicate Collision(a: seq<Md5.Byte>, b: seq<Md5.Byte>) { a != b && Md5.MD5(a) == Md5.MD5(b) }

  /** Material is plain ASCII, so no two shapes print the same bytes. */
  lemma BytesIdentifyShape(s: Shape, t: Shape)
    ensures AsBytes(Print(s)) == AsBytes(Print(t)) <==> s == t
  {
    hide Print;
    PrintAscii(s);
    PrintAscii(t);
    if AsBytes(Print(s)) == AsBytes(Print(t)) {
      AsciiBytes(Print(s), Print(t));
      ParsePrint(s, "");
      ParsePrint(t, "");
    }
  }

  lemma AsciiBytes(a: string, b: string)
    requires Ascii(a) && Ascii(b) && AsBytes(a) == AsBytes(b)
    ensures a == b
  {
    assert |a| == |AsBytes(a)| == |b|;
    forall i | 0 <= i < |a| ensures a[i] == b[i] {
      assert AsBytes(a)[i] == AsBytes(b)[i];
    }
  }

  /** The bytes handed to MD5 are the characters' codes. */
  lemma BytesAreCodes(s: string, i: nat)
    requires Ascii(s) && i < |s|
    ensures AsBytes(s)[i] as int == s[i] as int
  {
  }

  /** Two types have one fingerprint iff they have one shape or their materials, two different byte
      messages, collide under MD5. */
  lemma FingerprintIdentifiesShape(t: Ty, u: Ty)
    ensures Fingerprint(t) == Fingerprint(u) <==>
            Erase(t) == Erase(u) || Collision(AsBytes(Text(t)), AsBytes(Text(u)))
    ensures AsBytes(Text(t)) == AsBytes(Text(u)) <==> Erase(t) == Erase(u)
  {
    hide Md5.MD5;
    TextIsPrint(t);
    TextIsPrint(u);
    BytesIdentifyShape(Erase(t), Erase(u));
  }
}
