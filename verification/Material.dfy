/**
 Fingerprint material: the text a type prints for its fingerprint. `Parse` inverts the
 printer, so types with equal material agree in everything the material is meant to keep.
 */
module Material {
  import opened Wrappers

  /** t_base_type::t_base */
  datatype Base =
    | Void | Str | Bool | Byte | I16 | I32 | I64
    | Double | U16 | U32 | U64 | IPv4 | IPAddr | Xml
    | Uuid | StaticConstString | System | Request | Response | Trace | TraceObject
    | Buffer | Uve | DynamicUve | Alarm | Object | Flow | Session

  datatype Req = Required | Optional | OptInReqOut

  /** A type as the parser builds it. The members of a record are those in key order. */
  datatype Ty =
    | TBase(base: Base, binary: bool, stringList: bool, stringEnum: bool)
    | TEnum(name: string)
    | TList(elem: Ty)
    | TSet(elem: Ty)
    | TMap(key: Ty, val: Ty)
    | TRecord(name: string, members: seq<Member>)
    | TTypedef(symbolic: string, target: Ty)

  datatype Member = Member(key: int, req: Req, name: string, ty: Ty)

  /** What the material keeps of a type. */
  datatype Shape =
    | SBase(base: Base)
    | SEnum
    | SList(elem: Shape)
    | SSet(elem: Shape)
    | SMap(key: Shape, val: Shape)
    | SRecord(fields: seq<SField>)

  datatype SField = SField(key: int, optional: bool, ty: Shape)

  function Name(b: Base): string {
    match b
    case Void => "void"
    case Str => "string"
    case Bool => "bool"
    case Byte => "byte"
    case I16 => "i16"
    case I32 => "i32"
    case I64 => "i64"
    case Double => "double"
    case U16 => "u16"
    case U32 => "u32"
    case U64 => "u64"
    case IPv4 => "ipv4"
    case IPAddr => "ipaddr"
    case Xml => "xml"
    case Uuid => "uuid_t"
    case StaticConstString => "static const string"
    case System => "system"
    case Request => "request"
    case Response => "response"
    case Trace => "trace"
    case TraceObject => "traceobject"
    case Buffer => "buffer"
    case Uve => "uve"
    case DynamicUve => "dynamicuve"
    case Alarm => "alarm"
    case Object => "object"
    case Flow => "flow"
    case Session => "session"
  }

  // ----- The printer -----

  function PrintNat(n: nat): (s: string)
    ensures |s| > 0
  {
    if n < 10 then [Digit(n)] else PrintNat(n / 10) + [Digit(n % 10)]
  }

  function Digit(d: nat): char
    requires d < 10
  {
    '0' + d as char
  }

  function PrintInt(n: int): string {
    if n < 0 then "-" + PrintNat(-n) else PrintNat(n)
  }

  /** get_fingerprint_material of each kind of type. */
  function Text(t: Ty): string
    decreases t, 0
  {
    match t
    case TBase(b, _, _, _) => Name(b)
    case TEnum(_) => "enum"
    case TList(e) => "list<" + Text(e) + ">"
    case TSet(e) => "set<" + Text(e) + ">"
    case TMap(k, v) => "map<" + Text(k) + "," + Text(v) + ">"
    case TTypedef(_, u) => Text(u)
    case TRecord(_, ms) => "{" + TextFrom(t, 0) + "}"
  }

  function TextFrom(t: Ty, i: nat): string
    requires t.TRecord? && i <= |t.members|
    decreases t, 0, |t.members| - i
  {
    if i == |t.members| then "" else
      PrintInt(t.members[i].key) + ":" + (if t.members[i].req == Optional then "opt-" else "")
      + Text(t.members[i].ty) + ";" + TextFrom(t, i + 1)
  }

  /** Typedefs, names, flags, enum identity and the required/default distinction go. */
  function Erase(t: Ty): Shape {
    match t
    case TBase(b, _, _, _) => SBase(b)
    case TEnum(_) => SEnum
    case TList(e) => SList(Erase(e))
    case TSet(e) => SSet(Erase(e))
    case TMap(k, v) => SMap(Erase(k), Erase(v))
    case TTypedef(_, u) => Erase(u)
    case TRecord(_, ms) =>
      SRecord(seq(|ms|, i requires 0 <= i < |ms| => SField(ms[i].key, ms[i].req == Optional, Erase(ms[i].ty))))
  }

  /** The same text, printed from the shape alone. */
  function Print(t: Shape): string
    decreases t, 0
  {
    match t
    case SBase(b) => Name(b)
    case SEnum => "enum"
    case SList(e) => "list<" + Print(e) + ">"
    case SSet(e) => "set<" + Print(e) + ">"
    case SMap(k, v) => "map<" + Print(k) + "," + Print(v) + ">"
    case SRecord(fs) => "{" + PrintFrom(t, 0) + "}"
  }

  function PrintFrom(t: Shape, i: nat): string
    requires t.SRecord? && i <= |t.fields|
    decreases t, 0, |t.fields| - i
  {
    if i == |t.fields| then "" else
      PrintInt(t.fields[i].key) + ":" + (if t.fields[i].optional then "opt-" else "")
      + Print(t.fields[i].ty) + ";" + PrintFrom(t, i + 1)
  }

  lemma {:induction false} TextIsPrint(t: Ty)
    ensures Text(t) == Print(Erase(t))
    decreases t, 1
  {
    match t {
      case TBase(_, _, _, _) =>
      case TEnum(_) =>
      case TList(e) => TextIsPrint(e);
      case TSet(e) => TextIsPrint(e);
      case TMap(k, v) => TextIsPrint(k); TextIsPrint(v);
      case TTypedef(_, u) => TextIsPrint(u);
      case TRecord(_, ms) => TextFromIsPrint(t, 0);
    }
  }

  lemma {:induction false} TextFromIsPrint(t: Ty, i: nat)
    requires t.TRecord? && i <= |t.members|
    ensures TextFrom(t, i) == PrintFrom(Erase(t), i)
    decreases t, 0, |t.members| - i
  {
    if i < |t.members| {
      TextIsPrint(t.members[i].ty);
      TextFromIsPrint(t, i + 1);
    }
  }

  // ----- The very text -----

  /** The name each base type is created with when the compiler starts. */
  function CreatedAs(b: Base): string {
    match b
    case Void => "void" case Str => "string" case Bool => "bool" case Byte => "byte"
    case I16 => "i16" case I32 => "i32" case I64 => "i64" case Double => "double"
    case U16 => "u16" case U32 => "u32" case U64 => "u64" case IPv4 => "ipv4"
    case IPAddr => "ipaddr" case Xml => "xml" case Uuid => "uuid_t" case System => "system"
    case Request => "request" case Response => "response" case Trace => "trace" case TraceObject => "traceobject"
    case Buffer => "buffer" case Uve => "uve" case DynamicUve => "dynamicuve" case Alarm => "alarm"
    case Object => "object" case Flow => "flow" case Session => "session" case StaticConstString => "static const string"
  }

  /** The material of a base type is the name it was created with. */
  lemma MaterialIsName(b: Base)
    ensures Text(TBase(b, false, false, false)) == CreatedAs(b)
  {
  }

  /** What containers print. */
  lemma ContainerTexts()
    ensures var num := TBase(I32, false, false, false);
            && Text(TList(num)) == "list<i32>" && Text(TSet(TEnum("e"))) == "set<enum>"
            && Text(TTypedef("t", TMap(TEnum("e"), num))) == "map<enum,i32>"
  {
    hide Name, PrintInt;
    SomeTexts();
    var num := TBase(I32, false, false, false);
    assert "list<" + "i32" + ">" == "list<i32>";
    assert "set<" + "enum" + ">" == "set<enum>";
    assert "map<" + "enum" + "," + "i32" + ">" == "map<enum,i32>";
    assert Text(TTypedef("t", TMap(TEnum("e"), num))) == Text(TMap(TEnum("e"), num));
  }

  /** What records print: key in decimal, the mark of an optional member, the type. */
  lemma RecordTexts()
    ensures var num := TBase(I32, false, false, false);
            && Text(TRecord("r", [])) == "{}"
            && Text(TRecord("r", [Member(-7, Required, "a", num)])) == "{-7:i32;}"
            && Text(TRecord("r", [Member(120, Optional, "a", num)])) == "{120:opt-i32;}"
            && Text(TRecord("r", [Member(120, OptInReqOut, "a", num)])) == "{120:i32;}"
  {
    hide Name, PrintInt;
    SomeTexts();
    assert TextFrom(TRecord("r", []), 0) == "" && "{" + "" + "}" == "{}";
    OneMember(Member(-7, Required, "a", TBase(I32, false, false, false)));
    OneMember(Member(120, Optional, "a", TBase(I32, false, false, false)));
    OneMember(Member(120, OptInReqOut, "a", TBase(I32, false, false, false)));
    assert "{" + ("-7" + ":" + "" + "i32" + ";" + "") + "}" == "{-7:i32;}";
    assert "{" + ("120" + ":" + "opt-" + "i32" + ";" + "") + "}" == "{120:opt-i32;}";
    assert "{" + ("120" + ":" + "" + "i32" + ";" + "") + "}" == "{120:i32;}";
  }

  lemma OneMember(m: Member)
    ensures Text(TRecord("r", [m])) ==
            "{" + (PrintInt(m.key) + ":" + (if m.req == Optional then "opt-" else "") + Text(m.ty) + ";" + "") + "}"
  {
    hide PrintInt;
    var t := TRecord("r", [m]);
    assert TextFrom(t, 1) == "";
  }

  lemma SomeTexts()
    ensures Name(I32) == "i32" && PrintInt(-7) == "-7" && PrintInt(120) == "120"
  {
    assert PrintNat(1) == "1" && PrintNat(12) == "12" && PrintNat(120) == "120" && PrintNat(7) == "7";
  }

  // ----- The alphabet -----

  predicate Ascii(s: string) { forall i | 0 <= i < |s| :: s[i] < 128 as char }

  lemma AsciiJoins(a: string, b: string)
    requires Ascii(a) && Ascii(b)
    ensures Ascii(a + b)
  {
  }

  lemma {:induction false} NatAscii(n: nat)
    ensures Ascii(PrintNat(n))
  {
    if n >= 10 {
      NatAscii(n / 10);
    }
  }

  lemma NameAscii(b: Base)
    ensures Ascii(Name(b))
  {
  }

  lemma {:induction false} PrintAscii(t: Shape)
    ensures Ascii(Print(t))
    decreases t, 1
  {
    match t {
      case SBase(b) => NameAscii(b);
      case SEnum =>
      case SList(e) => PrintAscii(e);
      case SSet(e) => PrintAscii(e);
      case SMap(k, v) => PrintAscii(k); PrintAscii(v);
      case SRecord(fs) => FieldsAscii(t, 0);
    }
  }

  lemma {:induction false} FieldsAscii(t: Shape, i: nat)
    requires t.SRecord? && i <= |t.fields|
    ensures Ascii(PrintFrom(t, i))
    decreases t, 0, |t.fields| - i
  {
    hide Ascii, PrintInt, Print;
    MarksAscii();
    if i < |t.fields| {
      var f := t.fields[i];
      IntAscii(f.key);
      PrintAscii(f.ty);
      FieldsAscii(t, i + 1);
      var key, opt := PrintInt(f.key), if f.optional then "opt-" else "";
      AsciiJoins(key, ":");
      AsciiJoins(key + ":", opt);
      AsciiJoins(key + ":" + opt, Print(f.ty));
      AsciiJoins(key + ":" + opt + Print(f.ty), ";");
      AsciiJoins(key + ":" + opt + Print(f.ty) + ";", PrintFrom(t, i + 1));
    }
  }

  lemma IntAscii(n: int)
    ensures Ascii(PrintInt(n))
  {
    hide PrintNat;
    NatAscii(if n < 0 then -n else n);
  }

  lemma MarksAscii()
    ensures Ascii("") && Ascii(":") && Ascii(";") && Ascii("opt-")
  {
  }

  // ----- The parser -----

  predicate IsDelimiter(c: char) { c == '>' || c == ',' || c == ';' }

  /** Text may follow a type only if it is empty or starts with a delimiter. */
  predicate Stops(s: string) { s == "" || IsDelimiter(s[0]) }

  function Word(s: string): (w: string)
    ensures w <= s
  {
    if Stops(s) then "" else [s[0]] + Word(s[1..])
  }

  function Candidate(w: string): Base {
    if |w| == 3 then
      if w[0] == 'i' then (if w[1] == '1' then I16 else if w[1] == '3' then I32 else I64)
      else if w[0] == 'x' then Xml
      else if w[1] == '1' then U16 else if w[1] == '3' then U32 else if w[1] == '6' then U64 else Uve
    else if |w| == 4 then
      if w[0] == 'v' then Void else if w[0] == 'i' then IPv4 else if w[0] == 'f' then Flow
      else if w[1] == 'o' then Bool else Byte
    else if |w| == 5 then if w[0] == 't' then Trace else Alarm
    else if |w| == 6 then
      if w[0] == 's' then (if w[1] == 't' then Str else System)
      else if w[0] == 'd' then Double else if w[0] == 'i' then IPAddr
      else if w[0] == 'u' then Uuid else if w[0] == 'b' then Buffer else Object
    else if |w| == 7 then if w[0] == 'r' then Request else Session
    else if |w| == 8 then Response
    else if |w| == 10 then DynamicUve
    else if |w| == 11 then TraceObject
    else StaticConstString
  }

  function BaseOf(w: string): Option<Shape> {
    if w == "enum" then Some(SEnum)
    else if Name(Candidate(w)) == w then Some(SBase(Candidate(w)))
    else None
  }

  lemma BaseOfName(b: Base)
    ensures BaseOf(Name(b)) == Some(SBase(b))
  {
  }

  /** The text up to the first colon. */
  function KeyText(s: string): (w: string)
    ensures w <= s
  {
    if s == "" || s[0] == ':' then "" else [s[0]] + KeyText(s[1..])
  }

  function NatOf(s: string): int {
    if s == "" then 0 else NatOf(s[..|s| - 1]) * 10 + (s[|s| - 1] as int - '0' as int)
  }

  function IntOf(s: string): int {
    if "-" <= s then -NatOf(s[1..]) else NatOf(s)
  }

  function Expect(c: char, s: string): (r: Option<string>)
    ensures r.Some? ==> s == [c] + r.value
  {
    if s != "" && s[0] == c then Some(s[1..]) else None
  }

  /** Reads one type off the front of `s`. */
  function Parse(s: string): (r: Option<(Shape, string)>)
    ensures r.Some? ==> |r.value.1| < |s|
    decreases |s|, 0
  {
    if "list<" <= s then
      var (e, rest) :- Parse(s[5..]);
      var rest :- Expect('>', rest);
      Some((SList(e), rest))
    else if "set<" <= s then
      var (e, rest) :- Parse(s[4..]);
      var rest :- Expect('>', rest);
      Some((SSet(e), rest))
    else if "map<" <= s then
      var (k, rest) :- Parse(s[4..]);
      var rest :- Expect(',', rest);
      var (v, rest) :- Parse(rest);
      var rest :- Expect('>', rest);
      Some((SMap(k, v), rest))
    else if "{" <= s then
      var (fs, rest) :- ParseFields(s[1..]);
      Some((SRecord(fs), rest))
    else
      var w := Word(s);
      if w == "" then None
      else
        var b :- BaseOf(w);
        Some((b, s[|w|..]))
  }

  function ParseFields(s: string): (r: Option<(seq<SField>, string)>)
    ensures r.Some? ==> |r.value.1| < |s|
    decreases |s|, 1
  {
    if "}" <= s then Some(([], s[1..]))
    else
      var key := KeyText(s);
      var rest :- Expect(':', s[|key|..]);
      var opt := "opt-" <= rest;
      var (t, rest) :- Parse(if opt then rest[4..] else rest);
      var rest :- Expect(';', rest);
      var (fs, rest) :- ParseFields(rest);
      Some(([SField(IntOf(key), opt, t)] + fs, rest))
  }

  // ----- The parser inverts the printer -----

  lemma {:induction false} NatInverse(n: nat)
    ensures NatOf(PrintNat(n)) == n
    ensures forall c | c in PrintNat(n) :: '0' <= c <= '9'
  {
    var s := PrintNat(n);
    if n >= 10 {
      NatInverse(n / 10);
      assert s[..|s| - 1] == PrintNat(n / 10);
    } else {
      assert s[..|s| - 1] == "";
    }
  }

  lemma IntInverse(n: int)
    ensures IntOf(PrintInt(n)) == n
    ensures forall c | c in PrintInt(n) :: c == '-' || '0' <= c <= '9'
    ensures PrintInt(n) != ""
  {
    NatInverse(if n < 0 then -n else n);
    if n < 0 {
      assert PrintInt(n)[1..] == PrintNat(-n);
    } else {
      assert PrintNat(n)[0] in PrintNat(n);
    }
  }

  lemma {:induction false} WordInverse(w: string, rest: string)
    requires (forall c | c in w :: !IsDelimiter(c)) && Stops(rest)
    ensures Word(w + rest) == w
  {
    if w == "" {
      assert w + rest == rest;
    } else {
      assert (w + rest)[0] == w[0] && (w + rest)[1..] == w[1..] + rest;
      WordInverse(w[1..], rest);
    }
  }

  lemma {:induction false} KeyInverse(w: string, rest: string)
    requires ':' !in w
    ensures KeyText(w + ":" + rest) == w
  {
    var s := w + ":" + rest;
    if w != "" {
      assert s[0] == w[0] && s[1..] == w[1..] + ":" + rest;
      KeyInverse(w[1..], rest);
    }
  }

  /** No base name looks like the start of a container, a record or an optional mark. */
  lemma NamesArePlain(b: Base)
    ensures var w := Name(b);
            && |w| > 1 && (forall c | c in w :: !IsDelimiter(c) && c != '<')
            && w[0] != '{' && w[0] != '}' && (w[0] != 'o' || w[1] != 'p')
  {
  }

  lemma NotOptional(t: Shape, rest: string)
    ensures !("opt-" <= Print(t) + rest)
  {
    var s := Print(t) + rest;
    match t {
      case SBase(b) => NamesArePlain(b); assert s[0] == Name(b)[0] && s[1] == Name(b)[1];
      case SEnum => assert s[0] == 'e';
      case SList(_) => assert s[0] == 'l';
      case SSet(_) => assert s[0] == 's';
      case SMap(_, _) => assert s[0] == 'm';
      case SRecord(_) => assert s[0] == '{';
    }
  }

  lemma WordParses(w: string, b: Shape, rest: string)
    requires |w| > 1 && (forall c | c in w :: !IsDelimiter(c) && c != '<') && w[0] != '{'
    requires BaseOf(w) == Some(b) && Stops(rest)
    ensures Parse(w + rest) == Some((b, rest))
  {
    hide BaseOf;
    var s := w + rest;
    WordInverse(w, rest);
    assert s[|w|..] == rest;
    assert s[0] == w[0];
    if "list<" <= s {
      NoAngle(w, rest, 4);
    }
    if "set<" <= s || "map<" <= s {
      NoAngle(w, rest, 3);
    }
  }

  /** The first '<' cannot come from a plain word followed by a delimiter. */
  lemma NoAngle(w: string, rest: string, k: nat)
    requires forall c | c in w :: c != '<' && !IsDelimiter(c)
    requires Stops(rest) && k < |w + rest|
    requires forall i | 0 <= i < k :: !IsDelimiter((w + rest)[i])
    ensures (w + rest)[k] != '<'
  {
    if k < |w| {
      assert (w + rest)[k] == w[k] && w[k] in w;
    } else {
      assert (w + rest)[|w|] == rest[0];
    }
  }

  /** The first character of a container or record text decides how it is parsed. */
  lemma ParseUnfolds(s: string)
    ensures "list<" <= s ==> Parse(s) == ParseAngled(Parse(s[5..]), false)
    ensures "set<" <= s ==> Parse(s) == ParseAngled(Parse(s[4..]), true)
    ensures "map<" <= s ==> Parse(s) == ParseSecond(Parse(s[4..]))
    ensures "{" <= s ==> Parse(s) == ParseMembers(ParseFields(s[1..]))
  {
    if "set<" <= s {
      assert s[0] == 's';
    } else if "map<" <= s {
      assert s[0] == 'm';
    } else if "{" <= s {
      assert s[0] == '{';
    }
  }

  function ParseAngled(r: Option<(Shape, string)>, isSet: bool): Option<(Shape, string)> {
    var (e, rest) :- r;
    var rest :- Expect('>', rest);
    Some((if isSet then SSet(e) else SList(e), rest))
  }

  function ParseSecond(r: Option<(Shape, string)>): Option<(Shape, string)> {
    var (k, rest) :- r;
    var rest :- Expect(',', rest);
    var (v, rest) :- Parse(rest);
    var rest :- Expect('>', rest);
    Some((SMap(k, v), rest))
  }

  function ParseMembers(r: Option<(seq<SField>, string)>): Option<(Shape, string)> {
    var (fs, rest) :- r;
    Some((SRecord(fs), rest))
  }

  lemma ListStep(m: string, e: Shape, rest: string)
    requires Parse(m + (">" + rest)) == Some((e, ">" + rest))
    ensures Parse("list<" + m + ">" + rest) == Some((SList(e), rest))
  {
    hide Parse;
    var s := "list<" + m + ">" + rest;
    assert "list<" <= s && s[5..] == m + (">" + rest);
    ParseUnfolds(s);
  }

  lemma SetStep(m: string, e: Shape, rest: string)
    requires Parse(m + (">" + rest)) == Some((e, ">" + rest))
    ensures Parse("set<" + m + ">" + rest) == Some((SSet(e), rest))
  {
    hide Parse;
    var s := "set<" + m + ">" + rest;
    assert "set<" <= s && s[4..] == m + (">" + rest);
    ParseUnfolds(s);
  }

  lemma MapStep(m: string, k: Shape, n: string, v: Shape, rest: string)
    requires Parse(m + ("," + (n + (">" + rest)))) == Some((k, "," + (n + (">" + rest))))
    requires Parse(n + (">" + rest)) == Some((v, ">" + rest))
    ensures Parse("map<" + m + "," + n + ">" + rest) == Some((SMap(k, v), rest))
  {
    hide Parse;
    var s := "map<" + m + "," + n + ">" + rest;
    assert "map<" <= s && s[4..] == m + ("," + (n + (">" + rest)));
    ParseUnfolds(s);
  }

  lemma RecordStep(m: string, fs: seq<SField>, rest: string)
    requires ParseFields(m + ("}" + rest)) == Some((fs, rest))
    ensures Parse("{" + m + "}" + rest) == Some((SRecord(fs), rest))
  {
    hide Parse;
    var s := "{" + m + "}" + rest;
    assert "{" <= s && s[1..] == m + ("}" + rest);
    ParseUnfolds(s);
  }

  lemma EndStep(rest: string)
    ensures ParseFields("}" + rest) == Some(([], rest))
  {
  }

  lemma FieldStep(f: SField, m: string, after: string, fs: seq<SField>, rest: string)
    requires Parse(m + (";" + after)) == Some((f.ty, ";" + after)) && !("opt-" <= m + (";" + after))
    requires ParseFields(after) == Some((fs, rest))
    ensures ParseFields(PrintInt(f.key) + ":" + (if f.optional then "opt-" else "") + m + ";" + after)
         == Some(([f] + fs, rest))
  {
    hide Parse, PrintInt, IntOf;
    var key, opt := PrintInt(f.key), if f.optional then "opt-" else "";
    var body := m + (";" + after);
    var s := key + ":" + opt + m + ";" + after;
    IntInverse(f.key);
    assert s == key + ":" + (opt + body);
    KeyInverse(key, opt + body);
    assert key[0] in key && s[0] == key[0];
    assert s[|key|..] == ":" + (opt + body);
    if f.optional {
      assert "opt-" <= opt + body && (opt + body)[4..] == body;
    } else {
      assert opt + body == body;
    }
  }

  lemma {:induction false} ParsePrint(t: Shape, rest: string)
    requires Stops(rest)
    ensures Parse(Print(t) + rest) == Some((t, rest))
    decreases t, 1
  {
    hide Parse, ParseFields, BaseOf;
    match t {
      case SBase(b) =>
        NamesArePlain(b);
        BaseOfName(b);
        WordParses(Name(b), t, rest);
      case SEnum =>
        EnumWord();
        WordParses("enum", t, rest);
      case SList(e) =>
        ParsePrint(e, ">" + rest);
        ListStep(Print(e), e, rest);
      case SSet(e) =>
        ParsePrint(e, ">" + rest);
        SetStep(Print(e), e, rest);
      case SMap(k, v) =>
        ParsePrint(v, ">" + rest);
        ParsePrint(k, "," + (Print(v) + (">" + rest)));
        MapStep(Print(k), k, Print(v), v, rest);
      case SRecord(fs) =>
        FieldsParse(t, 0, rest);
        assert fs[0..] == fs;
        RecordStep(PrintFrom(t, 0), fs, rest);
    }
  }

  lemma EnumWord()
    ensures BaseOf("enum") == Some(SEnum)
  {
  }

  lemma FieldText(t: Shape, i: nat, rest: string)
    requires t.SRecord? && i < |t.fields|
    ensures var f := t.fields[i];
            PrintFrom(t, i) + rest == PrintInt(f.key) + ":" + (if f.optional then "opt-" else "") + Print(f.ty) + ";" + (PrintFrom(t, i + 1) + rest)
  {
    hide PrintInt, Print;
    var f := t.fields[i];
    var head := PrintInt(f.key) + ":" + (if f.optional then "opt-" else "") + Print(f.ty) + ";";
    assert PrintFrom(t, i) == head + PrintFrom(t, i + 1);
  }

  lemma {:induction false} FieldsParse(t: Shape, i: nat, rest: string)
    requires t.SRecord? && i <= |t.fields|
    ensures ParseFields(PrintFrom(t, i) + ("}" + rest)) == Some((t.fields[i..], rest))
    decreases t, 0, |t.fields| - i
  {
    hide Parse, ParseFields;
    if i == |t.fields| {
      assert t.fields[i..] == [] && PrintFrom(t, i) + ("}" + rest) == "}" + rest;
      EndStep(rest);
    } else {
      var f := t.fields[i];
      var after := PrintFrom(t, i + 1) + ("}" + rest);
      FieldsParse(t, i + 1, rest);
      ParsePrint(f.ty, ";" + after);
      NotOptional(f.ty, ";" + after);
      FieldStep(f, Print(f.ty), after, t.fields[i + 1..], rest);
      FieldText(t, i, "}" + rest);
      assert t.fields[i..] == [f] + t.fields[i + 1..];
    }
  }

  /** Unique decodability: two types print the same material exactly when they have the same shape. */
  lemma MaterialIdentifiesShape(t: Ty, u: Ty)
    ensures Text(t) == Text(u) <==> Erase(t) == Erase(u)
  {
    TextIsPrint(t);
    TextIsPrint(u);
    ParsePrint(Erase(t), "");
    ParsePrint(Erase(u), "");
    assert Text(t) + "" == Text(t) && Text(u) + "" == Text(u);
  }
}
