/**
 The dense reflection walk: a depth-first emitter over a set of fingerprints already seen.
 */
module Reflection {
  import opened Wrappers
  import opened Material
  import Record
  import Md5

  type Key = seq<Md5.Byte>

  /** The fingerprint of a type depends on its shape alone. */
  function KeyOf(s: Shape): Key { Md5.MD5(Record.AsBytes(Print(s))) }

  lemma KeyOfType(t: Ty)
    ensures Record.Fingerprint(t) == KeyOf(Erase(t))
  {
    TextIsPrint(t);
  }

  const VOID := SBase(Void)

  /** What has been marked as reflected, and the definitions written, in order. */
  datatype State = State(reflected: set<Key>, out: seq<Shape>)

  // ----- The walk -----

  /** A type without parts. */
  function VisitLeaf(s: Shape, st: State): State {
    if KeyOf(s) in st.reflected then st else State(st.reflected + {KeyOf(s)}, st.out + [s])
  }

  function Visit(s: Shape, st: State): State
    decreases s, 1
  {
    if KeyOf(s) in st.reflected then st
    else
      var st2 := VisitParts(s, st.(reflected := st.reflected + {KeyOf(s)}));
      st2.(out := st2.out + [s])
  }

  function VisitParts(s: Shape, st: State): State
    decreases s, 0
  {
    match s
    case SBase(_) => st
    case SEnum => st
    case SList(e) => Visit(e, st)
    case SSet(e) => Visit(e, st)
    case SMap(k, v) => Visit(v, Visit(k, st))
    case SRecord(fs) => VisitLeaf(VOID, VisitFields(s, |fs|, st))
  }

  /** The first `n` members of a record. */
  function VisitFields(s: Shape, n: nat, st: State): State
    requires s.SRecord? && n <= |s.fields|
    decreases s, 0, n
  {
    if n == 0 then st else Visit(s.fields[n - 1].ty, VisitFields(s, n - 1, st))
  }

  /** The types a definition refers to. */
  function Parts(s: Shape): seq<Shape> {
    match s
    case SBase(_) => []
    case SEnum => []
    case SList(e) => [e]
    case SSet(e) => [e]
    case SMap(k, v) => [k, v]
    case SRecord(fs) => seq(|fs|, i requires 0 <= i < |fs| => fs[i].ty) + [VOID]
  }

  // ----- generate_local_reflection -----

  class Generator {
    var reflected: set<Key>
    var out: seq<Shape>

    constructor ()
      ensures View() == State({}, [])
    {
      reflected, out := {}, [];
    }

    function View(): State
      reads this
    {
      State(reflected, out)
    }

    /** `foreign` names the records and enums that belong to another program. */
    method Generate(foreign: set<string>, t: Ty)
      modifies this
      ensures View() == VisitTy(foreign, t, old(View()))
      decreases t, 1
    {
      hide KeyOf, Record.Fingerprint, VisitMembers;
      if t.TTypedef? {
        Generate(foreign, t.target);
        return;
      }
      KeyOfType(t);
      var key := Record.Fingerprint(t);
      if key in reflected {
        return;
      }
      reflected := reflected + {key};
      if Foreign(foreign, t) {
        return;
      }
      match t {
        case TList(e) => Generate(foreign, e);
        case TSet(e) => Generate(foreign, e);
        case TMap(k, v) =>
          Generate(foreign, k);
          Generate(foreign, v);
        case TRecord(_, ms) =>
          GenerateMembers(foreign, t);
          if KeyOf(VOID) !in reflected {
            reflected := reflected + {KeyOf(VOID)};
            out := out + [VOID];
          }
        case _ =>
      }
      out := out + [Erase(t)];
    }

    method GenerateMembers(foreign: set<string>, t: Ty)
      requires t.TRecord?
      modifies this
      ensures View() == VisitMembers(foreign, t, |t.members|, old(View()))
      decreases t, 0
    {
      hide KeyOf, VisitTy;
      for i := 0 to |t.members|
        invariant View() == VisitMembers(foreign, t, i, old(View()))
      {
        Generate(foreign, t.members[i].ty);
      }
    }
  }

  predicate Foreign(foreign: set<string>, t: Ty) {
    (t.TRecord? || t.TEnum?) && t.name in foreign
  }

  /** The walk over types as declared. */
  function VisitTy(foreign: set<string>, t: Ty, st: State): State
    decreases t, 1
  {
    if t.TTypedef? then VisitTy(foreign, t.target, st)
    else if KeyOf(Erase(t)) in st.reflected then st
    else
      var marked := st.(reflected := st.reflected + {KeyOf(Erase(t))});
      if Foreign(foreign, t) then marked
      else
        var st2 := VisitDeps(foreign, t, marked);
        st2.(out := st2.out + [Erase(t)])
  }

  function VisitDeps(foreign: set<string>, t: Ty, st: State): State
    decreases t, 0
  {
    match t
    case TList(e) => VisitTy(foreign, e, st)
    case TSet(e) => VisitTy(foreign, e, st)
    case TMap(k, v) => VisitTy(foreign, v, VisitTy(foreign, k, st))
    case TRecord(_, ms) => VisitLeaf(VOID, VisitMembers(foreign, t, |ms|, st))
    case _ => st
  }

  function VisitMembers(foreign: set<string>, t: Ty, n: nat, st: State): State
    requires t.TRecord? && n <= |t.members|
    decreases t, 0, n
  {
    if n == 0 then st else VisitTy(foreign, t.members[n - 1].ty, VisitMembers(foreign, t, n - 1, st))
  }

  /** Within one program only the shape matters. */
  lemma {:induction false} VisitsShape(t: Ty, st: State)
    ensures VisitTy({}, t, st) == Visit(Erase(t), st)
    decreases t, 1
  {
    hide KeyOf, VisitFields, VisitMembers, VisitLeaf;
    var marked := st.(reflected := st.reflected + {KeyOf(Erase(t))});
    match t {
      case TTypedef(_, u) => VisitsShape(u, st);
      case TList(e) => VisitsShape(e, marked);
      case TSet(e) => VisitsShape(e, marked);
      case TMap(k, v) =>
        VisitsShape(k, marked);
        VisitsShape(v, VisitTy({}, k, marked));
      case TRecord(_, ms) => MembersShape(t, |ms|, marked);
      case TBase(_, _, _, _) =>
      case TEnum(_) =>
    }
  }

  lemma {:induction false} MembersShape(t: Ty, n: nat, st: State)
    requires t.TRecord? && n <= |t.members|
    ensures VisitMembers({}, t, n, st) == VisitFields(Erase(t), n, st)
    decreases t, 0, n
  {
    hide KeyOf, Visit, VisitTy, VisitLeaf;
    if n > 0 {
      MembersShape(t, n - 1, st);
      VisitsShape(t.members[n - 1].ty, VisitMembers({}, t, n - 1, st));
    }
  }

  // ----- A mark without a definition -----

  function VisitAll(foreign: set<string>, ts: seq<Ty>, st: State): State {
    if ts == [] then st else VisitTy(foreign, ts[|ts| - 1], VisitAll(foreign, ts[..|ts| - 1], st))
  }

  /** A walk marks more and only writes what was not marked when it began. */
  ghost predicate Extends(st: State, r: State) {
    && st.out <= r.out && st.reflected <= r.reflected
    && forall x | x in r.out :: x in st.out || KeyOf(x) !in st.reflected
  }

  lemma {:induction false} VisitExtends(foreign: set<string>, t: Ty, st: State)
    ensures Extends(st, VisitTy(foreign, t, st))
    decreases t, 1
  {
    hide KeyOf, VisitMembers;
    var marked := st.(reflected := st.reflected + {KeyOf(Erase(t))});
    match t {
      case TTypedef(_, u) => VisitExtends(foreign, u, st);
      case TList(e) => VisitExtends(foreign, e, marked);
      case TSet(e) => VisitExtends(foreign, e, marked);
      case TMap(k, v) =>
        VisitExtends(foreign, k, marked);
        VisitExtends(foreign, v, VisitTy(foreign, k, marked));
      case TRecord(_, ms) => MembersExtend(foreign, t, |ms|, marked);
      case TBase(_, _, _, _) =>
      case TEnum(_) =>
    }
  }

  lemma {:induction false} MembersExtend(foreign: set<string>, t: Ty, n: nat, st: State)
    requires t.TRecord? && n <= |t.members|
    ensures Extends(st, VisitMembers(foreign, t, n, st))
    decreases t, 0, n
  {
    hide KeyOf, VisitTy;
    if n > 0 {
      MembersExtend(foreign, t, n - 1, st);
      VisitExtends(foreign, t.members[n - 1].ty, VisitMembers(foreign, t, n - 1, st));
    }
  }

  /** A shape that is marked but not written is never written, whatever is walked later. */
  lemma {:induction false} HiddenStays(foreign: set<string>, ts: seq<Ty>, st: State, s: Shape)
    requires KeyOf(s) in st.reflected && s !in st.out
    ensures var r := VisitAll(foreign, ts, st); KeyOf(s) in r.reflected && s !in r.out
  {
    hide KeyOf, VisitTy;
    if ts != [] {
      HiddenStays(foreign, ts[..|ts| - 1], st, s);
      VisitExtends(foreign, ts[|ts| - 1], VisitAll(foreign, ts[..|ts| - 1], st));
    }
  }

  // ----- The order in which types are met -----

  /** One call of the walk: the shape it was called on, and whether the type belongs elsewhere. */
  datatype Meeting = Meeting(shape: Shape, foreign: bool)

  /** The calls made while `t` is walked, in order. */
  function Met(foreign: set<string>, t: Ty, st: State): seq<Meeting>
    decreases t, 1
  {
    if t.TTypedef? then Met(foreign, t.target, st)
    else
      var marked := st.(reflected := st.reflected + {KeyOf(Erase(t))});
      [Meeting(Erase(t), Foreign(foreign, t))] +
      if KeyOf(Erase(t)) in st.reflected || Foreign(foreign, t) then [] else MetDeps(foreign, t, marked)
  }

  function MetDeps(foreign: set<string>, t: Ty, st: State): seq<Meeting>
    decreases t, 0
  {
    match t
    case TList(e) => Met(foreign, e, st)
    case TSet(e) => Met(foreign, e, st)
    case TMap(k, v) => Met(foreign, k, st) + Met(foreign, v, VisitTy(foreign, k, st))
    case TRecord(_, ms) => MetMembers(foreign, t, |ms|, st) + [Meeting(VOID, false)]
    case _ => []
  }

  function MetMembers(foreign: set<string>, t: Ty, n: nat, st: State): seq<Meeting>
    requires t.TRecord? && n <= |t.members|
    decreases t, 0, n
  {
    if n == 0 then []
    else
      MetMembers(foreign, t, n - 1, st) +
      Met(foreign, t.members[n - 1].ty, VisitMembers(foreign, t, n - 1, st))
  }

  function MetAll(foreign: set<string>, ts: seq<Ty>): seq<Meeting> {
    if ts == [] then []
    else
      var n := |ts| - 1;
      MetAll(foreign, ts[..n]) + Met(foreign, ts[n], VisitAll(foreign, ts[..n], State({}, [])))
  }

  /** Did the first type met with this shape belong elsewhere? None if none was met. */
  function First(met: seq<Meeting>, x: Shape): (r: Option<bool>)
    ensures r.Some? <==> exists m :: m in met && m.shape == x
    ensures r.Some? ==> Meeting(x, r.value) in met
  {
    if met == [] then None else if met[0].shape == x then Some(met[0].foreign) else First(met[1..], x)
  }

  lemma {:induction false} FirstJoins(a: seq<Meeting>, b: seq<Meeting>, x: Shape)
    ensures First(a + b, x) == if First(a, x).Some? then First(a, x) else First(b, x)
  {
    if a == [] {
      assert a + b == b;
    } else {
      assert (a + b)[1..] == a[1..] + b;
      FirstJoins(a[1..], b, x);
    }
  }

  // ----- The invariant of the walk -----

  /** A set of shapes closed under parts whose fingerprints do not collide. */
  ghost predicate Universe(u: set<Shape>) {
    && (forall x | x in u :: forall p | p in Parts(x) :: p in u)
    && (forall x, y | x in u && y in u && KeyOf(x) == KeyOf(y) :: x == y)
  }

  /** Fingerprints are distinct exactly when no two materials collide under MD5. */
  lemma UniverseIffNoCollision(u: set<Shape>)
    requires forall x | x in u :: forall p | p in Parts(x) :: p in u
    ensures Universe(u) <==>
            forall x, y | x in u && y in u :: !Record.Collision(Record.AsBytes(Print(x)), Record.AsBytes(Print(y)))
  {
    hide Parts, Print, Record.AsBytes, Md5.MD5;
    forall x, y ensures Record.AsBytes(Print(x)) == Record.AsBytes(Print(y)) <==> x == y {
      Record.BytesIdentifyShape(x, y);
    }
  }

  /** Every definition stands after those of its parts, save parts first met as foreign. */
  ghost predicate InOrder(out: seq<Shape>, met: seq<Meeting>) {
    forall i | 0 <= i < |out| :: forall p | p in Parts(out[i]) :: p in out[..i] || First(met, p) == Some(true)
  }

  ghost predicate Once(out: seq<Shape>) { forall i, j | 0 <= i < j < |out| :: out[i] != out[j] }

  /** Marked is exactly what was met; written or still open is exactly what was first met as own. */
  ghost predicate Good(u: set<Shape>, open: set<Shape>, st: State, met: seq<Meeting>) {
    && Once(st.out) && InOrder(st.out, met)
    && (forall m | m in met :: m.shape in u)
    && (forall k :: k in st.reflected <==> exists m | m in met :: KeyOf(m.shape) == k)
    && (forall x :: x in st.out || x in open <==> First(met, x) == Some(false))
    && (forall x | x in st.out :: x !in open)
  }

  /** The open types are containers and records longer than anything below them. */
  ghost predicate Above(open: set<Shape>, s: Shape) {
    forall x | x in open :: !Leaf(x) && (Leaf(s) || |Print(x)| > |Print(s)|)
  }

  predicate Leaf(s: Shape) { s.SBase? || s.SEnum? }

  /** Only the first meeting of a shape changes anything. */
  lemma FirstAfter(met: seq<Meeting>, m: Meeting)
    ensures forall x :: First(met + [m], x) == if First(met, x).None? && x == m.shape then Some(m.foreign) else First(met, x)
  {
    forall x ensures First(met + [m], x) == if First(met, x).None? && x == m.shape then Some(m.foreign) else First(met, x) {
      FirstJoins(met, [m], x);
      assert [m][1..] == [];
    }
  }

  /** A type whose key is marked has been met before. */
  lemma MetAgain(u: set<Shape>, open: set<Shape>, st: State, met: seq<Meeting>, m: Meeting)
    requires Universe(u) && Good(u, open, st, met) && m.shape in u && KeyOf(m.shape) in st.reflected
    ensures Good(u, open, st, met + [m]) && First(met, m.shape).Some?
  {
    hide KeyOf, First, Parts;
    var m0 :| m0 in met && KeyOf(m0.shape) == KeyOf(m.shape);
    assert m0.shape == m.shape;
    assert First(met, m.shape).Some?;
    FirstAfter(met, m);
    forall k ensures k in st.reflected <==> exists n | n in met + [m] :: KeyOf(n.shape) == k {
      if k in st.reflected {
        var n :| n in met && KeyOf(n.shape) == k;
        assert n in met + [m];
      }
    }
  }

  /** A new mark: the foreign type stays unwritten, the own one is open. */
  lemma MetNew(u: set<Shape>, open: set<Shape>, st: State, met: seq<Meeting>, m: Meeting)
    requires Good(u, open, st, met) && m.shape in u && KeyOf(m.shape) !in st.reflected
    ensures m.shape !in open && m.shape !in st.out
    ensures First(met + [m], m.shape) == Some(m.foreign)
    ensures Good(u, if m.foreign then open else open + {m.shape}, st.(reflected := st.reflected + {KeyOf(m.shape)}), met + [m])
  {
    hide KeyOf, First, Parts;
    var reflected := st.reflected + {KeyOf(m.shape)};
    FirstAfter(met, m);
    assert First(met, m.shape).None?;
    forall k ensures k in reflected <==> exists n | n in met + [m] :: KeyOf(n.shape) == k {
      if k == KeyOf(m.shape) {
        assert m in met + [m];
      } else if k in st.reflected {
        var n :| n in met && KeyOf(n.shape) == k;
        assert n in met + [m];
      }
    }
  }

  /** The walk of an open type ends: it is written after its parts. */
  lemma Closing(u: set<Shape>, open: set<Shape>, s: Shape, st: State, met: seq<Meeting>)
    requires Good(u, open + {s}, st, met) && s !in open
    requires forall p | p in Parts(s) :: p in st.out || First(met, p) == Some(true)
    ensures Good(u, open, st.(out := st.out + [s]), met)
  {
    hide KeyOf, Parts, First;
    var out := st.out + [s];
    forall i | 0 <= i < |out| ensures forall p | p in Parts(out[i]) :: p in out[..i] || First(met, p) == Some(true) {
      if i < |st.out| {
        assert out[..i] == st.out[..i] && out[i] == st.out[i];
      } else {
        assert out[..i] == st.out;
      }
    }
    forall x ensures x in out || x in open <==> x in st.out || x in open + {s} {
    }
    assert s !in st.out;
  }

  lemma VoidVisited(u: set<Shape>, open: set<Shape>, st: State, met: seq<Meeting>)
    requires Universe(u) && Good(u, open, st, met) && VOID in u && VOID !in open
    ensures Good(u, open, VisitLeaf(VOID, st), met + [Meeting(VOID, false)])
    ensures st.out <= VisitLeaf(VOID, st).out
  {
    hide KeyOf, Good;
    var m := Meeting(VOID, false);
    if KeyOf(VOID) in st.reflected {
      MetAgain(u, open, st, met, m);
    } else {
      MetNew(u, open, st, met, m);
      Closing(u, open, VOID, st.(reflected := st.reflected + {KeyOf(VOID)}), met + [m]);
    }
  }

  /** Parts are shorter than what they are parts of, except leaves. */
  lemma PartShorter(s: Shape, p: Shape)
    requires p in Parts(s)
    ensures !Leaf(s) && (Leaf(p) || |Print(p)| < |Print(s)|)
  {
    if s.SRecord? && p != VOID {
      var i :| 0 <= i < |s.fields| && s.fields[i].ty == p;
      FieldShorter(s, 0, i);
    }
  }

  lemma {:induction false} FieldShorter(s: Shape, i: nat, j: nat)
    requires s.SRecord? && i <= j < |s.fields|
    ensures |Print(s.fields[j].ty)| < |PrintFrom(s, i)|
    decreases j - i
  {
    hide PrintInt, Print;
    if i < j {
      FieldShorter(s, i + 1, j);
    }
  }

  lemma AboveParts(open: set<Shape>, s: Shape, p: Shape)
    requires Above(open, s) && p in Parts(s)
    ensures Above(open + {s}, p) && p !in open + {s}
  {
    PartShorter(s, p);
  }

  /** A part that was met is written, unless it was first met as foreign. */
  lemma PartsDone(u: set<Shape>, open: set<Shape>, s: Shape, st: State, met: seq<Meeting>)
    requires Good(u, open + {s}, st, met) && Above(open, s)
    requires forall p | p in Parts(s) :: First(met, p).Some?
    ensures forall p | p in Parts(s) :: p in st.out || First(met, p) == Some(true)
  {
    hide KeyOf, First, Parts;
    forall p | p in Parts(s) ensures p in st.out || First(met, p) == Some(true) {
      AboveParts(open, s, p);
    }
  }

  lemma PartIn(u: set<Shape>, s: Shape, p: Shape)
    requires Universe(u) && s in u && p in Parts(s)
    ensures p in u
  {
    hide KeyOf, Parts;
  }

  /** Every call of the walk keeps the invariant, whatever is foreign. */
  lemma {:induction false} VisitGood(u: set<Shape>, open: set<Shape>, foreign: set<string>, t: Ty, st: State, met: seq<Meeting>)
    requires Universe(u) && Good(u, open, st, met) && Erase(t) in u && Above(open, Erase(t))
    ensures var r, m := VisitTy(foreign, t, st), met + Met(foreign, t, st);
            Good(u, open, r, m) && st.out <= r.out && First(m, Erase(t)).Some?
    decreases t, 2
  {
    hide KeyOf, Good, Above, Universe, First, VisitMembers, MetMembers;
    if t.TTypedef? {
      VisitGood(u, open, foreign, t.target, st, met);
    } else {
      var s := Erase(t);
      var m := Meeting(s, Foreign(foreign, t));
      var marked := st.(reflected := st.reflected + {KeyOf(s)});
      if KeyOf(s) in st.reflected {
        MetAgain(u, open, st, met, m);
        FirstJoins(met, [m], s);
        assert Met(foreign, t, st) == [m];
      } else if m.foreign {
        MetNew(u, open, st, met, m);
        assert Met(foreign, t, st) == [m];
      } else {
        MetNew(u, open, st, met, m);
        DepsGood(u, open, foreign, t, marked, met + [m]);
        var rest := MetDeps(foreign, t, marked);
        assert Met(foreign, t, st) == [m] + rest && met + ([m] + rest) == met + [m] + rest;
        FirstJoins(met + [m], rest, s);
        PartsDone(u, open, s, VisitDeps(foreign, t, marked), met + [m] + rest);
        Closing(u, open, s, VisitDeps(foreign, t, marked), met + [m] + rest);
      }
    }
  }

  /** One part of an open type. */
  lemma {:induction false} PartGood(u: set<Shape>, open: set<Shape>, foreign: set<string>, s: Shape, t: Ty, st: State, met: seq<Meeting>)
    requires Universe(u) && s in u && Above(open, s) && Good(u, open + {s}, st, met) && Erase(t) in Parts(s)
    ensures var r, m := VisitTy(foreign, t, st), met + Met(foreign, t, st);
            Good(u, open + {s}, r, m) && st.out <= r.out && First(m, Erase(t)).Some?
    decreases t, 3
  {
    hide KeyOf, Good, Above, Universe, Parts, VisitTy, Met, First;
    PartIn(u, s, Erase(t));
    AboveParts(open, s, Erase(t));
    VisitGood(u, open + {s}, foreign, t, st, met);
  }

  lemma {:induction false} DepsGood(u: set<Shape>, open: set<Shape>, foreign: set<string>, t: Ty, st: State, met: seq<Meeting>)
    requires Universe(u) && Erase(t) in u && Above(open, Erase(t)) && Good(u, open + {Erase(t)}, st, met) && !t.TTypedef?
    ensures var r, m := VisitDeps(foreign, t, st), met + MetDeps(foreign, t, st);
            && Good(u, open + {Erase(t)}, r, m) && st.out <= r.out
            && forall p | p in Parts(Erase(t)) :: First(m, p).Some?
    decreases t, 1
  {
    hide KeyOf, Good, Above, Universe, VisitTy, Met, First;
    var s := Erase(t);
    match t {
      case TBase(_, _, _, _) => assert met + [] == met;
      case TEnum(_) => assert met + [] == met;
      case TList(e) => PartGood(u, open, foreign, s, e, st, met);
      case TSet(e) => PartGood(u, open, foreign, s, e, st, met);
      case TMap(k, v) =>
        var st2, m := VisitTy(foreign, k, st), met + Met(foreign, k, st);
        PartGood(u, open, foreign, s, k, st, met);
        PartGood(u, open, foreign, s, v, st2, m);
        FirstJoins(m, Met(foreign, v, st2), Erase(k));
        assert m + Met(foreign, v, st2) == met + MetDeps(foreign, t, st);
      case TRecord(_, ms) => RecordGood(u, open, foreign, t, st, met);
    }
  }

  lemma {:induction false} RecordGood(u: set<Shape>, open: set<Shape>, foreign: set<string>, t: Ty, st: State, met: seq<Meeting>)
    requires Universe(u) && Erase(t) in u && Above(open, Erase(t)) && Good(u, open + {Erase(t)}, st, met) && t.TRecord?
    ensures var r, m := VisitDeps(foreign, t, st), met + MetDeps(foreign, t, st);
            && Good(u, open + {Erase(t)}, r, m) && st.out <= r.out
            && forall p | p in Parts(Erase(t)) :: First(m, p).Some?
    decreases t, 0, 1 + |t.members|
  {
    hide KeyOf, Good, Above, Universe, VisitTy, Met, First, VisitLeaf;
    var s, n, last := Erase(t), |t.members|, [Meeting(VOID, false)];
    MembersGood(u, open, foreign, t, n, st, met);
    var r, m := VisitMembers(foreign, t, n, st), met + MetMembers(foreign, t, n, st);
    assert Parts(s)[n] == VOID;
    PartIn(u, s, VOID);
    AboveParts(open, s, VOID);
    VoidVisited(u, open + {s}, r, m);
    assert m + last == met + MetDeps(foreign, t, st);
    forall p | p in Parts(s) ensures First(m + last, p).Some? {
      FirstJoins(m, last, p);
      if p == VOID {
        FirstAfter(m, last[0]);
      } else {
        var i :| 0 <= i < |Parts(s)| && Parts(s)[i] == p;
        assert p == Erase(t.members[i].ty);
      }
    }
  }

  lemma {:induction false} MembersGood(u: set<Shape>, open: set<Shape>, foreign: set<string>, t: Ty, n: nat, st: State, met: seq<Meeting>)
    requires Universe(u) && Erase(t) in u && Above(open, Erase(t)) && Good(u, open + {Erase(t)}, st, met)
    requires t.TRecord? && n <= |t.members|
    ensures var r, m := VisitMembers(foreign, t, n, st), met + MetMembers(foreign, t, n, st);
            && Good(u, open + {Erase(t)}, r, m) && st.out <= r.out
            && forall i | 0 <= i < n :: First(m, Erase(t.members[i].ty)).Some?
    decreases t, 0, n
  {
    hide KeyOf, Good, Above, Universe, VisitTy, Met, First;
    if n == 0 {
      assert met + [] == met;
    } else {
      MembersGood(u, open, foreign, t, n - 1, st, met);
      var x := t.members[n - 1].ty;
      var r, m := VisitMembers(foreign, t, n - 1, st), met + MetMembers(foreign, t, n - 1, st);
      assert Parts(Erase(t))[n - 1] == Erase(x);
      PartGood(u, open, foreign, Erase(t), x, r, m);
      var more := Met(foreign, x, r);
      assert m + more == met + MetMembers(foreign, t, n, st);
      forall i | 0 <= i < n ensures First(m + more, Erase(t.members[i].ty)).Some? {
        FirstJoins(m, more, Erase(t.members[i].ty));
      }
    }
  }

  // ----- The theorems -----

  lemma {:induction false} AllGood(u: set<Shape>, foreign: set<string>, ts: seq<Ty>)
    requires Universe(u) && forall i | 0 <= i < |ts| :: Erase(ts[i]) in u
    ensures Good(u, {}, VisitAll(foreign, ts, State({}, [])), MetAll(foreign, ts))
    ensures forall i | 0 <= i < |ts| :: First(MetAll(foreign, ts), Erase(ts[i])).Some?
  {
    hide KeyOf, VisitTy, Met, First;
    if ts == [] {
      NothingMet(u);
    } else {
      var n := |ts| - 1;
      AllGood(u, foreign, ts[..n]);
      var st, met := VisitAll(foreign, ts[..n], State({}, [])), MetAll(foreign, ts[..n]);
      VisitGood(u, {}, foreign, ts[n], st, met);
      forall i | 0 <= i < |ts| ensures First(MetAll(foreign, ts), Erase(ts[i])).Some? {
        FirstJoins(met, Met(foreign, ts[n], st), Erase(ts[i]));
        assert i < n ==> ts[..n][i] == ts[i];
      }
    }
  }

  lemma NothingMet(u: set<Shape>)
    ensures Good(u, {}, State({}, []), [])
  {
  }

  /** For every program, whatever it includes: a shape is defined iff the first type met with that
      shape is the program's own; it is defined once, after those of its parts that are. */
  lemma DefinedIffOwnMetFirst(u: set<Shape>, foreign: set<string>, ts: seq<Ty>)
    requires Universe(u) && forall i | 0 <= i < |ts| :: Erase(ts[i]) in u
    ensures var out, met := VisitAll(foreign, ts, State({}, [])).out, MetAll(foreign, ts);
            && (forall x :: x in out <==> First(met, x) == Some(false))
            && Once(out) && InOrder(out, met)
  {
    AllGood(u, foreign, ts);
  }

  /** The types below `t` in preorder, whatever is marked, not looking into foreign ones. */
  function Pre(foreign: set<string>, t: Ty): seq<Meeting>
    decreases t, 1
  {
    if t.TTypedef? then Pre(foreign, t.target)
    else [Meeting(Erase(t), Foreign(foreign, t))] + if Foreign(foreign, t) then [] else PreDeps(foreign, t)
  }

  function PreDeps(foreign: set<string>, t: Ty): seq<Meeting>
    decreases t, 0
  {
    match t
    case TList(e) => Pre(foreign, e)
    case TSet(e) => Pre(foreign, e)
    case TMap(k, v) => Pre(foreign, k) + Pre(foreign, v)
    case TRecord(_, ms) => PreMembers(foreign, t, |ms|) + [Meeting(VOID, false)]
    case _ => []
  }

  function PreMembers(foreign: set<string>, t: Ty, n: nat): seq<Meeting>
    requires t.TRecord? && n <= |t.members|
    decreases t, 0, n
  {
    if n == 0 then [] else PreMembers(foreign, t, n - 1) + Pre(foreign, t.members[n - 1].ty)
  }

  function PreAll(foreign: set<string>, ts: seq<Ty>): seq<Meeting> {
    if ts == [] then [] else PreAll(foreign, ts[..|ts| - 1]) + Pre(foreign, ts[|ts| - 1])
  }

  lemma {:induction false} MetReached(foreign: set<string>, t: Ty, st: State)
    ensures forall m | m in Met(foreign, t, st) :: m in Pre(foreign, t)
    decreases t, 2
  {
    hide KeyOf, MetDeps, PreDeps;
    if t.TTypedef? {
      MetReached(foreign, t.target, st);
    } else {
      DepsReached(foreign, t, st.(reflected := st.reflected + {KeyOf(Erase(t))}));
    }
  }

  lemma {:induction false} DepsReached(foreign: set<string>, t: Ty, st: State)
    ensures forall m | m in MetDeps(foreign, t, st) :: m in PreDeps(foreign, t)
    decreases t, 1
  {
    hide KeyOf, VisitTy, Met, Pre;
    match t {
      case TList(e) => MetReached(foreign, e, st);
      case TSet(e) => MetReached(foreign, e, st);
      case TMap(k, v) =>
        MetReached(foreign, k, st);
        MetReached(foreign, v, VisitTy(foreign, k, st));
      case TRecord(_, ms) => MembersReached(foreign, t, |ms|, st);
      case _ =>
    }
  }

  lemma {:induction false} MembersReached(foreign: set<string>, t: Ty, n: nat, st: State)
    requires t.TRecord? && n <= |t.members|
    ensures forall m | m in MetMembers(foreign, t, n, st) :: m in PreMembers(foreign, t, n)
    decreases t, 0, n
  {
    hide KeyOf, VisitTy, Met, Pre;
    if n > 0 {
      MembersReached(foreign, t, n - 1, st);
      MetReached(foreign, t.members[n - 1].ty, VisitMembers(foreign, t, n - 1, st));
    }
  }

  lemma {:induction false} AllReached(foreign: set<string>, ts: seq<Ty>)
    ensures forall m | m in MetAll(foreign, ts) :: m in PreAll(foreign, ts)
  {
    hide KeyOf, VisitTy, Met, Pre;
    if ts != [] {
      var n := |ts| - 1;
      AllReached(foreign, ts[..n]);
      MetReached(foreign, ts[n], VisitAll(foreign, ts[..n], State({}, [])));
    }
  }

  // ----- The walk and the plain preorder -----

  /** Some own type has a shape first met as foreign, in the walk as in the preorder. */
  ghost predicate Broken(met: seq<Meeting>, pre: seq<Meeting>) {
    exists x :: Meeting(x, false) in pre && First(met, x) == Some(true) && First(pre, x) == Some(true)
  }

  /** Every own type has a shape first met as own. */
  ghost predicate OwnFirst(pre: seq<Meeting>) {
    forall x :: Meeting(x, false) in pre ==> First(pre, x) == Some(false)
  }

  /** Until an own type is hidden, the walk and the preorder meet shapes first as the same. */
  ghost predicate InStep(met: seq<Meeting>, pre: seq<Meeting>) {
    Broken(met, pre) || (OwnFirst(pre) && forall x :: First(met, x) == First(pre, x))
  }

  lemma BrokenStays(met: seq<Meeting>, pre: seq<Meeting>, a: seq<Meeting>, b: seq<Meeting>)
    requires Broken(met, pre)
    ensures Broken(met + a, pre + b)
  {
    hide First;
    var x :| Meeting(x, false) in pre && First(met, x) == Some(true) && First(pre, x) == Some(true);
    FirstJoins(met, a, x);
    FirstJoins(pre, b, x);
    assert Meeting(x, false) in pre + b;
  }

  lemma BothMeet(met: seq<Meeting>, pre: seq<Meeting>, m: Meeting)
    requires InStep(met, pre)
    ensures InStep(met + [m], pre + [m])
    ensures !m.foreign && First(met, m.shape) == Some(true) ==> Broken(met + [m], pre + [m])
  {
    hide First, Broken;
    FirstAfter(met, m);
    FirstAfter(pre, m);
    if Broken(met, pre) {
      BrokenStays(met, pre, [m], [m]);
    } else if !m.foreign && First(met, m.shape) == Some(true) {
      Breaks(met + [m], pre + [m], m.shape);
    }
  }

  lemma Breaks(met: seq<Meeting>, pre: seq<Meeting>, x: Shape)
    requires Meeting(x, false) in pre && First(met, x) == Some(true) && First(pre, x) == Some(true)
    ensures Broken(met, pre)
  {
  }

  /** The preorder meets a shape again that the walk already knows. */
  lemma PreMeets(met: seq<Meeting>, pre: seq<Meeting>, m: Meeting)
    requires InStep(met, pre) && First(met, m.shape).Some?
    ensures InStep(met, pre + [m])
    ensures !m.foreign && First(met, m.shape) == Some(true) ==> Broken(met, pre + [m])
  {
    hide First, Broken;
    FirstAfter(pre, m);
    assert met + [] == met;
    if Broken(met, pre) {
      BrokenStays(met, pre, [], [m]);
    } else if !m.foreign && First(met, m.shape) == Some(true) {
      Breaks(met, pre + [m], m.shape);
    }
  }

  /** What is written is closed under parts, but for shapes first met as foreign. */
  ghost predicate Done(out: seq<Shape>, met: seq<Meeting>) {
    && (forall x | x in out :: First(met, x) == Some(false))
    && forall x | x in out :: forall p | p in Parts(x) :: p in out || First(met, p) == Some(true)
  }

  ghost predicate Known(s: Shape, out: seq<Shape>, met: seq<Meeting>) { s in out || First(met, s) == Some(true) }

  /** The preorder walks a known type again. */
  lemma {:induction false} Replay(foreign: set<string>, t: Ty, out: seq<Shape>, met: seq<Meeting>, pre: seq<Meeting>)
    requires InStep(met, pre) && Done(out, met) && Known(Erase(t), out, met)
    ensures InStep(met, pre + Pre(foreign, t))
    decreases t, 2
  {
    hide First, InStep, Done, Broken, PreDeps;
    if t.TTypedef? {
      Replay(foreign, t.target, out, met, pre);
    } else {
      var m := Meeting(Erase(t), Foreign(foreign, t));
      KnownMet(m.shape, out, met);
      PreMeets(met, pre, m);
      if m.foreign {
        assert Pre(foreign, t) == [m];
      } else {
        ReplayDeps(foreign, t, out, met, pre + [m]);
        assert pre + [m] + PreDeps(foreign, t) == pre + Pre(foreign, t);
      }
    }
  }

  lemma KnownMet(s: Shape, out: seq<Shape>, met: seq<Meeting>)
    requires Done(out, met) && Known(s, out, met)
    ensures First(met, s).Some? && (First(met, s) == Some(false) <==> s in out)
  {
    hide First, Parts;
  }

  lemma PartKnown(s: Shape, p: Shape, out: seq<Shape>, met: seq<Meeting>)
    requires Done(out, met) && s in out && p in Parts(s)
    ensures Known(p, out, met)
  {
    hide First, Parts;
  }

  lemma BrokenInStep(met: seq<Meeting>, pre: seq<Meeting>, b: seq<Meeting>)
    requires Broken(met, pre)
    ensures InStep(met, pre + b)
  {
    hide Broken;
    BrokenStays(met, pre, [], b);
    assert met + [] == met;
  }

  /** The parts of a known own type: if its shape is hidden, that is already the break. */
  lemma {:induction false} ReplayDeps(foreign: set<string>, t: Ty, out: seq<Shape>, met: seq<Meeting>, pre: seq<Meeting>)
    requires InStep(met, pre) && Done(out, met) && !t.TTypedef?
    requires Erase(t) in out || Broken(met, pre)
    ensures InStep(met, pre + PreDeps(foreign, t))
    decreases t, 1
  {
    hide First, InStep, Done, Broken, Pre, Known;
    var s := Erase(t);
    if s !in out {
      BrokenInStep(met, pre, PreDeps(foreign, t));
    } else {
      match t {
        case TBase(_, _, _, _) => assert pre + [] == pre;
        case TEnum(_) => assert pre + [] == pre;
        case TList(e) =>
          PartKnown(s, Erase(e), out, met);
          Replay(foreign, e, out, met, pre);
        case TSet(e) =>
          PartKnown(s, Erase(e), out, met);
          Replay(foreign, e, out, met, pre);
        case TMap(k, v) =>
          PartKnown(s, Erase(k), out, met);
          PartKnown(s, Erase(v), out, met);
          Replay(foreign, k, out, met, pre);
          Replay(foreign, v, out, met, pre + Pre(foreign, k));
          assert pre + Pre(foreign, k) + Pre(foreign, v) == pre + PreDeps(foreign, t);
        case TRecord(_, ms) =>
          ReplayMembers(foreign, t, |ms|, out, met, pre);
          var pre2 := pre + PreMembers(foreign, t, |ms|);
          assert Parts(s)[|ms|] == VOID;
          PartKnown(s, VOID, out, met);
          KnownMet(VOID, out, met);
          PreMeets(met, pre2, Meeting(VOID, false));
          assert pre2 + [Meeting(VOID, false)] == pre + PreDeps(foreign, t);
      }
    }
  }

  lemma {:induction false} ReplayMembers(foreign: set<string>, t: Ty, n: nat, out: seq<Shape>, met: seq<Meeting>, pre: seq<Meeting>)
    requires InStep(met, pre) && Done(out, met) && t.TRecord? && n <= |t.members| && Erase(t) in out
    ensures InStep(met, pre + PreMembers(foreign, t, n))
    decreases t, 0, n
  {
    hide First, InStep, Done, Broken, Pre, Known;
    if n == 0 {
      assert pre + [] == pre;
    } else {
      ReplayMembers(foreign, t, n - 1, out, met, pre);
      var x, pre2 := t.members[n - 1].ty, pre + PreMembers(foreign, t, n - 1);
      assert Parts(Erase(t))[n - 1] == Erase(x);
      PartKnown(Erase(t), Erase(x), out, met);
      Replay(foreign, x, out, met, pre2);
      assert pre2 + Pre(foreign, x) == pre + PreMembers(foreign, t, n);
    }
  }

  lemma GoodDone(u: set<Shape>, open: set<Shape>, st: State, met: seq<Meeting>)
    requires Good(u, open, st, met)
    ensures Done(st.out, met)
  {
    hide KeyOf, First, Parts;
    forall x, p | x in st.out && p in Parts(x) ensures p in st.out || First(met, p) == Some(true) {
      var i :| 0 <= i < |st.out| && st.out[i] == x;
      assert p in st.out[..i] || First(met, p) == Some(true);
    }
  }

  lemma NotOpen(u: set<Shape>, open: set<Shape>, s: Shape, st: State, met: seq<Meeting>)
    requires Good(u, open, st, met) && Above(open, s) && First(met, s) == Some(false)
    ensures s in st.out
  {
    hide KeyOf, First;
  }

  /** The walk of a type keeps in step with its preorder. */
  lemma {:induction false} WalkInStep(u: set<Shape>, open: set<Shape>, foreign: set<string>, t: Ty, st: State, met: seq<Meeting>, pre: seq<Meeting>)
    requires Universe(u) && Good(u, open, st, met) && Erase(t) in u && Above(open, Erase(t)) && InStep(met, pre)
    ensures InStep(met + Met(foreign, t, st), pre + Pre(foreign, t))
    decreases t, 2
  {
    hide KeyOf, Good, Above, Universe, First, InStep, Broken, MetDeps, PreDeps, VisitDeps, Done;
    if t.TTypedef? {
      WalkInStep(u, open, foreign, t.target, st, met, pre);
    } else {
      var s := Erase(t);
      var m := Meeting(s, Foreign(foreign, t));
      var marked := st.(reflected := st.reflected + {KeyOf(s)});
      BothMeet(met, pre, m);
      if KeyOf(s) in st.reflected {
        MetAgain(u, open, st, met, m);
        assert Met(foreign, t, st) == [m];
        if m.foreign {
          assert Pre(foreign, t) == [m];
        } else {
          FirstJoins(met, [m], s);
          GoodDone(u, open, st, met + [m]);
          if First(met, s) == Some(false) {
            NotOpen(u, open, s, st, met);
          }
          ReplayDeps(foreign, t, st.out, met + [m], pre + [m]);
          assert pre + [m] + PreDeps(foreign, t) == pre + Pre(foreign, t);
        }
      } else if m.foreign {
        assert Met(foreign, t, st) == [m] && Pre(foreign, t) == [m];
      } else {
        MetNew(u, open, st, met, m);
        DepsInStep(u, open, foreign, t, marked, met + [m], pre + [m]);
        assert met + [m] + MetDeps(foreign, t, marked) == met + Met(foreign, t, st);
        assert pre + [m] + PreDeps(foreign, t) == pre + Pre(foreign, t);
      }
    }
  }

  lemma {:induction false} PartInStep(u: set<Shape>, open: set<Shape>, foreign: set<string>, s: Shape, t: Ty, st: State, met: seq<Meeting>, pre: seq<Meeting>)
    requires Universe(u) && s in u && Above(open, s) && Good(u, open + {s}, st, met) && Erase(t) in Parts(s) && InStep(met, pre)
    ensures InStep(met + Met(foreign, t, st), pre + Pre(foreign, t))
    decreases t, 3
  {
    hide KeyOf, Good, Above, Universe, Parts, Met, Pre, First, InStep;
    PartIn(u, s, Erase(t));
    AboveParts(open, s, Erase(t));
    WalkInStep(u, open + {s}, foreign, t, st, met, pre);
  }

  lemma {:induction false} DepsInStep(u: set<Shape>, open: set<Shape>, foreign: set<string>, t: Ty, st: State, met: seq<Meeting>, pre: seq<Meeting>)
    requires Universe(u) && Erase(t) in u && Above(open, Erase(t)) && Good(u, open + {Erase(t)}, st, met) && !t.TTypedef?
    requires InStep(met, pre)
    ensures InStep(met + MetDeps(foreign, t, st), pre + PreDeps(foreign, t))
    decreases t, 1
  {
    hide KeyOf, Good, Above, Universe, VisitTy, Met, Pre, First, InStep;
    var s := Erase(t);
    match t {
      case TBase(_, _, _, _) => assert met + [] == met && pre + [] == pre;
      case TEnum(_) => assert met + [] == met && pre + [] == pre;
      case TList(e) => PartInStep(u, open, foreign, s, e, st, met, pre);
      case TSet(e) => PartInStep(u, open, foreign, s, e, st, met, pre);
      case TMap(k, v) =>
        var st2, met2, pre2 := VisitTy(foreign, k, st), met + Met(foreign, k, st), pre + Pre(foreign, k);
        PartInStep(u, open, foreign, s, k, st, met, pre);
        PartGood(u, open, foreign, s, k, st, met);
        PartInStep(u, open, foreign, s, v, st2, met2, pre2);
        assert met2 + Met(foreign, v, st2) == met + MetDeps(foreign, t, st);
        assert pre2 + Pre(foreign, v) == pre + PreDeps(foreign, t);
      case TRecord(_, ms) =>
        var last := [Meeting(VOID, false)];
        MembersInStep(u, open, foreign, t, |ms|, st, met, pre);
        var met2, pre2 := met + MetMembers(foreign, t, |ms|, st), pre + PreMembers(foreign, t, |ms|);
        BothMeet(met2, pre2, last[0]);
        assert met2 + last == met + MetDeps(foreign, t, st) && pre2 + last == pre + PreDeps(foreign, t);
    }
  }

  lemma {:induction false} MembersInStep(u: set<Shape>, open: set<Shape>, foreign: set<string>, t: Ty, n: nat, st: State, met: seq<Meeting>, pre: seq<Meeting>)
    requires Universe(u) && Erase(t) in u && Above(open, Erase(t)) && Good(u, open + {Erase(t)}, st, met)
    requires t.TRecord? && n <= |t.members| && InStep(met, pre)
    ensures InStep(met + MetMembers(foreign, t, n, st), pre + PreMembers(foreign, t, n))
    decreases t, 0, n
  {
    hide KeyOf, Good, Above, Universe, VisitTy, Met, Pre, First, InStep;
    if n == 0 {
      assert met + [] == met && pre + [] == pre;
    } else {
      MembersInStep(u, open, foreign, t, n - 1, st, met, pre);
      MembersGood(u, open, foreign, t, n - 1, st, met);
      var x, r := t.members[n - 1].ty, VisitMembers(foreign, t, n - 1, st);
      var met2, pre2 := met + MetMembers(foreign, t, n - 1, st), pre + PreMembers(foreign, t, n - 1);
      assert Parts(Erase(t))[n - 1] == Erase(x);
      PartInStep(u, open, foreign, Erase(t), x, r, met2, pre2);
      assert met2 + Met(foreign, x, r) == met + MetMembers(foreign, t, n, st);
      assert pre2 + Pre(foreign, x) == pre + PreMembers(foreign, t, n);
    }
  }

  lemma {:induction false} AllInStep(u: set<Shape>, foreign: set<string>, ts: seq<Ty>)
    requires Universe(u) && forall i | 0 <= i < |ts| :: Erase(ts[i]) in u
    ensures InStep(MetAll(foreign, ts), PreAll(foreign, ts))
  {
    hide KeyOf, VisitTy, Met, Pre, Good;
    if ts != [] {
      var n := |ts| - 1;
      AllInStep(u, foreign, ts[..n]);
      AllGood(u, foreign, ts[..n]);
      WalkInStep(u, {}, foreign, ts[n], VisitAll(foreign, ts[..n], State({}, [])), MetAll(foreign, ts[..n]), PreAll(foreign, ts[..n]));
    }
  }

  /** On the input alone: every own type is defined iff, in the plain preorder of the program's types,
      every own type has a shape that is first met as own. */
  lemma AllOwnDefinedIff(u: set<Shape>, foreign: set<string>, ts: seq<Ty>)
    requires Universe(u) && forall i | 0 <= i < |ts| :: Erase(ts[i]) in u
    ensures var out, pre := VisitAll(foreign, ts, State({}, [])).out, PreAll(foreign, ts);
            (forall x :: Meeting(x, false) in pre ==> x in out) <==> OwnFirst(pre)
  {
    hide KeyOf, VisitAll, MetAll, PreAll, First, InOrder, Once;
    DefinedIffOwnMetFirst(u, foreign, ts);
    AllInStep(u, foreign, ts);
  }

  /** No own type has the shape of a foreign one. */
  ghost predicate NoTwins(reach: seq<Meeting>) {
    forall x :: Meeting(x, false) in reach ==> Meeting(x, true) !in reach
  }

  ghost predicate Within(a: seq<Meeting>, b: seq<Meeting>) { forall m | m in a :: m in b }

  /** Written types are closed under parts, but for shapes of foreign types. */
  ghost predicate Closed(out: seq<Shape>, reach: seq<Meeting>) {
    forall x | x in out :: forall p | p in Parts(x) :: p in out || Meeting(p, true) in reach
  }

  lemma {:induction false} OwnReached(foreign: set<string>, t: Ty, out: seq<Shape>, reach: seq<Meeting>)
    requires Closed(out, reach) && NoTwins(reach) && Within(Pre(foreign, t), reach)
    requires Meeting(Erase(t), false) in Pre(foreign, t) ==> Erase(t) in out
    ensures forall m | m in Pre(foreign, t) && !m.foreign :: m.shape in out
    decreases t, 1
  {
    hide KeyOf;
    match t {
      case TTypedef(_, u) => OwnReached(foreign, u, out, reach);
      case TList(e) => assert Parts(Erase(t))[0] == Erase(e); OwnReached(foreign, e, out, reach);
      case TSet(e) => assert Parts(Erase(t))[0] == Erase(e); OwnReached(foreign, e, out, reach);
      case TMap(k, v) =>
        assert Parts(Erase(t))[0] == Erase(k) && Parts(Erase(t))[1] == Erase(v);
        OwnReached(foreign, k, out, reach);
        OwnReached(foreign, v, out, reach);
      case TRecord(_, ms) =>
        if !Foreign(foreign, t) {
          assert Parts(Erase(t))[|ms|] == VOID;
          OwnMembers(foreign, t, |ms|, out, reach);
        }
      case TBase(_, _, _, _) =>
      case TEnum(_) =>
    }
  }

  lemma {:induction false} OwnMembers(foreign: set<string>, t: Ty, n: nat, out: seq<Shape>, reach: seq<Meeting>)
    requires t.TRecord? && n <= |t.members| && Within(PreMembers(foreign, t, n), reach)
    requires Closed(out, reach) && NoTwins(reach) && Erase(t) in out
    ensures forall m | m in PreMembers(foreign, t, n) && !m.foreign :: m.shape in out
    decreases t, 0, n
  {
    hide KeyOf, Pre;
    if n > 0 {
      OwnMembers(foreign, t, n - 1, out, reach);
      assert Parts(Erase(t))[n - 1] == Erase(t.members[n - 1].ty);
      OwnReached(foreign, t.members[n - 1].ty, out, reach);
    }
  }

  /** If no own type has the shape of a foreign one, exactly the own types are defined, each once and
      after everything of its own that it is made of. */
  lemma OwnDefinedOnceAfterTheirParts(u: set<Shape>, foreign: set<string>, ts: seq<Ty>)
    requires Universe(u) && forall i | 0 <= i < |ts| :: Erase(ts[i]) in u
    requires NoTwins(PreAll(foreign, ts))
    ensures var out, reach := VisitAll(foreign, ts, State({}, [])).out, PreAll(foreign, ts);
            && (forall x :: x in out <==> Meeting(x, false) in reach)
            && Once(out)
            && forall i | 0 <= i < |out| :: forall p | p in Parts(out[i]) :: p in out[..i] || Meeting(p, true) in reach
  {
    hide KeyOf, First, Pre, VisitTy, Met, Parts;
    var out, met, reach := VisitAll(foreign, ts, State({}, [])).out, MetAll(foreign, ts), PreAll(foreign, ts);
    AllGood(u, foreign, ts);
    AllReached(foreign, ts);
    assert Closed(out, reach) by {
      forall x, p | x in out && p in Parts(x) ensures p in out || Meeting(p, true) in reach {
        var i :| 0 <= i < |out| && out[i] == x;
        assert p in out[..i] || First(met, p) == Some(true);
      }
    }
    AllOwn(foreign, ts, ts, out, reach);
  }

  lemma {:induction false} AllOwn(foreign: set<string>, ts: seq<Ty>, all: seq<Ty>, out: seq<Shape>, reach: seq<Meeting>)
    requires Closed(out, reach) && NoTwins(reach) && Within(PreAll(foreign, ts), reach)
    requires forall i | 0 <= i < |ts| :: First(MetAll(foreign, all), Erase(ts[i])).Some?
    requires forall m | m in MetAll(foreign, all) :: m in reach
    requires forall x :: x in out <==> First(MetAll(foreign, all), x) == Some(false)
    ensures forall m | m in PreAll(foreign, ts) && !m.foreign :: m.shape in out
  {
    hide KeyOf, First, Pre, MetAll, Closed;
    if ts != [] {
      var n := |ts| - 1;
      AllOwn(foreign, ts[..n], all, out, reach);
      assert First(MetAll(foreign, all), Erase(ts[n])).Some?;
      OwnReached(foreign, ts[n], out, reach);
    }
  }

  /** `x` is reached from `s` by going to parts. */
  ghost predicate Reaches(s: Shape, x: Shape, path: seq<Shape>)
    decreases |path|
  {
    if path == [] then x == s else path[0] in Parts(s) && Reaches(path[0], x, path[1..])
  }

  lemma {:induction false} ClosedUnderParts(out: seq<Shape>, s: Shape, x: Shape, path: seq<Shape>)
    requires Closed(out, []) && s in out && Reaches(s, x, path)
    ensures x in out
    decreases |path|
  {
    if path != [] {
      ClosedUnderParts(out, path[0], x, path[1..]);
    }
  }

  lemma {:induction false} NothingForeign(t: Ty, st: State)
    ensures forall m | m in Met({}, t, st) :: !m.foreign
    decreases t, 1
  {
    hide KeyOf, VisitTy, MetMembers;
    var marked := st.(reflected := st.reflected + {KeyOf(Erase(t))});
    match t {
      case TTypedef(_, u) => NothingForeign(u, st);
      case TList(e) => NothingForeign(e, marked);
      case TSet(e) => NothingForeign(e, marked);
      case TMap(k, v) =>
        NothingForeign(k, marked);
        NothingForeign(v, VisitTy({}, k, marked));
      case TRecord(_, ms) => NoForeignMembers(t, |ms|, marked);
      case TBase(_, _, _, _) =>
      case TEnum(_) =>
    }
  }

  lemma {:induction false} NoForeignMembers(t: Ty, n: nat, st: State)
    requires t.TRecord? && n <= |t.members|
    ensures forall m | m in MetMembers({}, t, n, st) :: !m.foreign
    decreases t, 0, n
  {
    hide KeyOf, VisitTy, Met;
    if n > 0 {
      NoForeignMembers(t, n - 1, st);
      NothingForeign(t.members[n - 1].ty, VisitMembers({}, t, n - 1, st));
    }
  }

  lemma {:induction false} AllOneProgram(ts: seq<Ty>)
    ensures forall m | m in MetAll({}, ts) :: !m.foreign
  {
    hide KeyOf, VisitTy, Met;
    if ts != [] {
      AllOneProgram(ts[..|ts| - 1]);
      NothingForeign(ts[|ts| - 1], VisitAll({}, ts[..|ts| - 1], State({}, [])));
    }
  }

  /** Within one program each structural type is defined exactly once, after everything it is made of. */
  lemma EachDefinedOnceAfterItsParts(u: set<Shape>, ts: seq<Ty>)
    requires Universe(u) && forall i | 0 <= i < |ts| :: Erase(ts[i]) in u
    ensures var out := VisitAll({}, ts, State({}, [])).out;
            && Once(out) && (forall i | 0 <= i < |out| :: forall p | p in Parts(out[i]) :: p in out[..i])
            && (forall i | 0 <= i < |ts| :: Erase(ts[i]) in out)
            && forall i, x, path | 0 <= i < |ts| && Reaches(Erase(ts[i]), x, path) :: x in out
  {
    hide KeyOf, VisitTy, Met, Parts;
    var out, met := VisitAll({}, ts, State({}, [])).out, MetAll({}, ts);
    AllGood(u, {}, ts);
    AllOneProgram(ts);
    assert forall x :: First(met, x) != Some(true);
    assert Closed(out, []) by {
      forall x, p | x in out && p in Parts(x) ensures p in out {
        var i :| 0 <= i < |out| && out[i] == x;
        assert p in out[..i];
      }
    }
    forall i, x, path | 0 <= i < |ts| && Reaches(Erase(ts[i]), x, path) ensures x in out {
      ClosedUnderParts(out, Erase(ts[i]), x, path);
    }
  }

  /** What belongs to another program: its records and its enums, by name, and nothing else. */
  lemma ForeignAre(foreign: set<string>, t: Ty)
    ensures Foreign(foreign, t) <==> exists n :: n in foreign && (t == TEnum(n) || (t.TRecord? && t.name == n))
  {
  }

  /** A foreign type met first hides its shape for good: nothing walked later defines it. */
  lemma ForeignHides(foreign: set<string>, t: Ty, st: State, ts: seq<Ty>)
    requires Foreign(foreign, t) && KeyOf(Erase(t)) !in st.reflected && Erase(t) !in st.out
    ensures Erase(t) !in VisitAll(foreign, ts, VisitTy(foreign, t, st)).out
  {
    hide KeyOf, VisitAll;
    HiddenStays(foreign, ts, VisitTy(foreign, t, st), Erase(t));
  }

  /** So a record of another program suppresses the program's own record of the same shape when a member
      of that type is met first. */
  lemma ForeignTwinHidesDefinition()
    ensures var holder := TRecord("holder", [Member(1, Required, "m", TRecord("other", []))]);
            SRecord([]) !in VisitAll({"other"}, [holder, TRecord("own", [])], State({}, [])).out
  {
    hide KeyOf;
    var other, own, s := TRecord("other", []), TRecord("own", []), SRecord([]);
    var holder := TRecord("holder", [Member(1, Required, "m", other)]);
    var ts, f := [holder, own], {"other"};
    assert Erase(other) == s && Erase(own) == s && Erase(holder) != s;
    var marked := State({KeyOf(Erase(holder))}, []);
    assert {} + {KeyOf(Erase(holder))} == marked.reflected;
    assert VisitMembers(f, holder, 0, marked) == marked;
    var met := VisitTy(f, other, marked);
    assert VisitMembers(f, holder, 1, marked) == met && KeyOf(s) in met.reflected && met.out == [];
    var st := VisitTy(f, holder, State({}, []));
    var last := VisitLeaf(VOID, met);
    assert VisitDeps(f, holder, marked) == last && st == last.(out := last.out + [Erase(holder)]);
    assert forall x | x in last.out :: x == VOID;
    assert KeyOf(s) in st.reflected && s !in st.out;
    assert ts[..1] == [holder] && ts[..1][..0] == [];
    assert VisitAll(f, [], State({}, [])) == State({}, []);
    assert VisitAll(f, ts[..1], State({}, [])) == st;
  }
}
