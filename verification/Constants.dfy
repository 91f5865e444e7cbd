/**
 Constants: resolving identifiers against the scope, checking a value against its declared
 type, and rendering it for C++ and Python. The generators do no checking of their own, so
 whatever passes the first two steps must render without an exception.
 */
module Constants {
  import opened Wrappers
  import opened Search
  import opened Material

  datatype Result<+T> = Ok(value: T) | Throw {
    predicate IsFailure() { Throw? }
    function PropagateFailure<U>(): Result<U>
      requires Throw?
    {
      Throw
    }
    function Extract(): T
      requires Ok?
    {
      value
    }
  }

  datatype Enum = Enum(name: string, constants: seq<EnumValue>)

  datatype EnumValue = EnumValue(name: string, value: int)

  /** `members` in declaration order; `sorted` those in key order, without repeated keys. */
  datatype Type =
    | Basic(base: Base)
    | Enumeration(enum: Enum)
    | Struct(xception: bool, members: seq<Field>, sorted: seq<Field>)
    | Map(key: Type, val: Type)
    | List(elem: Type)
    | Set(elem: Type)
    | Typedef(target: Type)

  datatype Field = Field(name: string, ty: Type)

  datatype Tag = CvInteger | CvDouble | CvString | CvMap | CvList | CvIdentifier

  /** t_const_value: a tag beside one slot per representation; stale slots keep their content. */
  datatype Const = Const(
    tag: Tag, num: int, dbl: real, str: string, ident: string, enum: Option<Enum>,
    entries: seq<Entry>, elems: seq<Const>)

  datatype Entry = Entry(key: Const, val: Const)

  /** A named constant of the scope. */
  datatype Named = Named(ty: Type, value: Const)

  type Scope = map<string, Named>

  // ----- Identifiers -----

  /** rfind('.'): one past the last dot, or 0. */
  function AfterLastDot(s: string): (k: nat)
    ensures k <= |s| && (k > 0 ==> s[k - 1] == '.') && '.' !in s[k..]
  {
    if s == "" then 0
    else if s[|s| - 1] == '.' then |s|
    else
      var k := AfterLastDot(s[..|s| - 1]);
      assert s[k..] == s[..|s| - 1][k..] + [s[|s| - 1]];
      k
  }

  /** get_identifier_name: drops up to two dotted qualifiers; an unqualified name throws. */
  function QualifiedName(s: string): Result<string> {
    var k := Find(s, '.');
    if k == |s| then Throw
    else
      var r := s[k + 1..];
      var j := Find(r, '.');
      Ok(if j == |r| then r else r[j + 1..])
  }

  /** The name get_integer looks up: what follows the last dot. */
  function LastName(s: string): string { s[AfterLastDot(s)..] }

  /** The two ways of splitting an enum identifier agree exactly when the first leaves no dot. */
  lemma SplittingsAgree(s: string)
    requires QualifiedName(s).Ok?
    ensures QualifiedName(s).value == LastName(s) <==> '.' !in QualifiedName(s).value
  {
    var n := QualifiedName(s).value;
    var k := |s| - |n|;
    assert s[k..] == n && k > 0 && s[k - 1] == '.';
    if '.' !in n {
      DotFreeSuffix(s, k);
    }
  }

  lemma DotFreeSuffix(s: string, k: nat)
    requires 0 < k <= |s| && s[k - 1] == '.' && '.' !in s[k..]
    ensures AfterLastDot(s) == k
  {
  }

  /** One or two dot-free qualifiers are dropped; a name without one throws. */
  lemma QualifiedParts(p: string, e: string, c: string)
    requires '.' !in p && '.' !in e && '.' !in c
    ensures QualifiedName(c).Throw?
    ensures QualifiedName(e + "." + c) == Ok(c) && LastName(e + "." + c) == c
    ensures QualifiedName(p + "." + (e + "." + c)) == Ok(c) && LastName(p + "." + (e + "." + c)) == c
  {
    hide Find, LastName;
    NoDot(c);
    FindDot(e, c);
    FindDot(p, e + "." + c);
    Rest(e, c);
    Rest(p, e + "." + c);
    LastPart(e, c);
    LastPart(p + "." + e, c);
    assert p + "." + (e + "." + c) == p + "." + e + "." + c;
  }

  lemma Rest(a: string, b: string)
    ensures (a + "." + b)[|a| + 1..] == b
  {
  }

  lemma FindDot(a: string, b: string)
    requires '.' !in a
    ensures Find(a + "." + b, '.') == |a|
  {
    var s, k := a + "." + b, Find(a + "." + b, '.');
    assert s[|a|] == '.' && forall i | 0 <= i < |a| :: s[i] == a[i];
  }

  lemma NoDot(a: string)
    requires '.' !in a
    ensures Find(a, '.') == |a|
  {
  }

  lemma LastPart(a: string, b: string)
    requires '.' !in b
    ensures LastName(a + "." + b) == b
  {
    assert (a + "." + b)[|a| + 1..] == b;
    DotFreeSuffix(a + "." + b, |a| + 1);
  }

  function ValueName(c: EnumValue): string { c.name }

  /** get_constant_by_name and get_constant_by_value: the first match. */
  function ByName(cs: seq<EnumValue>, name: string): (r: Option<EnumValue>)
    ensures r.Some? ==> r.value in cs && r.value.name == name
    ensures r.None? ==> forall c | c in cs :: c.name != name
  {
    FirstNamed(ValueName, cs, name)
  }

  function ByValue(cs: seq<EnumValue>, value: int): (r: Option<EnumValue>)
    ensures r.Some? ==> r.value in cs && r.value.value == value
    ensures r.None? ==> forall c | c in cs :: c.value != value
  {
    if cs == [] then None else if cs[0].value == value then Some(cs[0]) else ByValue(cs[1..], value)
  }

  /** t_const_value::get_integer */
  function Integer(v: Const): Result<int> {
    if v.tag != CvIdentifier then Ok(v.num)
    else if v.enum.None? then Throw
    else
      var c := ByName(v.enum.value.constants, LastName(v.ident));
      if c.None? then Throw else Ok(c.value.value)
  }

  // ----- resolve_const_value -----

  function TrueType(t: Type): Type {
    if t.Typedef? then TrueType(t.target) else t
  }

  function FieldName(f: Field): string { f.name }

  /** get_field_by_name: the first in key order. */
  function FieldByName(fs: seq<Field>, name: string): (r: Option<Field>)
    ensures r.Some? ==> r.value in fs && r.value.name == name
    ensures r.None? ==> forall f | f in fs :: f.name != name
  {
    FirstNamed(FieldName, fs, name)
  }

  /** An identifier that is not of an enum type becomes the constant it names. */
  function Lookup(scope: Scope, v: Const): Result<Const> {
    if v.ident !in scope then Throw
    else
      var c := scope[v.ident];
      match TrueType(c.ty)
      case Basic(b) =>
        if b in {I16, I32, I64, Bool, Byte, U16, U32, U64} then
          var n :- Integer(c.value);
          Ok(v.(tag := CvInteger, num := n))
        else if b in {Str, StaticConstString, Xml} then Ok(v.(tag := CvString, str := c.value.str))
        else if b == Double then Ok(v.(tag := CvDouble, dbl := c.value.dbl))
        else if b == Void then Throw
        else Ok(v)
      case Map(_, _) => Ok(v.(tag := CvMap, entries := v.entries + c.value.entries))
      case List(_) => Ok(v.(tag := CvList, elems := v.elems + c.value.elems))
      case _ => Ok(v)
  }

  function Resolve(scope: Scope, v: Const, t: Type): Result<Const>
    decreases v, 1
  {
    if t.Map? then
      var es :- ResolveEntries(scope, v, t, 0);
      Ok(v.(entries := es))
    else if t.List? || t.Set? then
      var es :- ResolveElems(scope, v, t.elem, 0);
      Ok(v.(elems := es))
    else if t.Struct? && !t.xception then
      var es :- ResolveEntries(scope, v, t, 0);
      Ok(v.(entries := es))
    else if v.tag == CvIdentifier then
      if t.Enumeration? then Ok(v.(enum := Some(t.enum))) else Lookup(scope, v)
    else if t.Enumeration? then
      var n :- Integer(v);
      var c := ByValue(t.enum.constants, n);
      if c.None? then Throw
      else Ok(v.(tag := CvIdentifier, ident := t.enum.name + "." + c.value.name, enum := Some(t.enum)))
    else Ok(v)
  }

  function ResolveElems(scope: Scope, v: Const, t: Type, i: nat): Result<seq<Const>>
    requires i <= |v.elems|
    decreases v, 0, |v.elems| - i
  {
    if i == |v.elems| then Ok([])
    else
      var e :- Resolve(scope, v.elems[i], t);
      var es :- ResolveElems(scope, v, t, i + 1);
      Ok([e] + es)
  }

  function ResolveEntries(scope: Scope, v: Const, t: Type, i: nat): Result<seq<Entry>>
    requires i <= |v.entries| && (t.Map? || t.Struct?)
    decreases v, 0, |v.entries| - i
  {
    if i == |v.entries| then Ok([])
    else
      var e :- ResolveEntry(scope, v, t, i);
      var es :- ResolveEntries(scope, v, t, i + 1);
      Ok([e] + es)
  }

  function ResolveEntry(scope: Scope, v: Const, t: Type, i: nat): Result<Entry>
    requires i < |v.entries| && (t.Map? || t.Struct?)
    decreases v, 0, 0
  {
    if t.Map? then
      var k :- Resolve(scope, v.entries[i].key, t.key);
      var x :- Resolve(scope, v.entries[i].val, t.val);
      Ok(Entry(k, x))
    else
      var f := FieldByName(t.sorted, v.entries[i].key.str);
      if f.None? then Throw
      else
        var x :- Resolve(scope, v.entries[i].val, f.value.ty);
        Ok(Entry(v.entries[i].key, x))
  }

  // ----- validate_const_rec -----

  /** The type of the last member with this name, as the validator and both generators find it. */
  function MemberType(fs: seq<Field>, name: string): (r: Option<Type>)
    ensures r.Some? ==> exists f :: f in fs && f.name == name && f.ty == r.value
    ensures r.None? ==> forall f | f in fs :: f.name != name
  {
    if fs == [] then None
    else if fs[|fs| - 1].name == name then Some(fs[|fs| - 1].ty)
    else MemberType(fs[..|fs| - 1], name)
  }

  /** The loop that overwrites `field_type` for every match. */
  method FindMemberType(fs: seq<Field>, name: string) returns (fieldType: Option<Type>)
    ensures fieldType == MemberType(fs, name)
  {
    fieldType := None;
    for i := 0 to |fs|
      invariant fieldType == MemberType(fs[..i], name)
    {
      assert fs[..i + 1][..i] == fs[..i];
      if fs[i].name == name {
        fieldType := Some(fs[i].ty);
      }
    }
    assert fs[..|fs|] == fs;
  }

  predicate ValidBasic(b: Base, v: Const) {
    if b in {Str, StaticConstString, Uuid, IPAddr} then v.tag == CvString
    else if b in {U16, U32, U64, Bool, Byte, I16, I32, I64} then v.tag == CvInteger
    else b == Double && (v.tag == CvInteger || v.tag == CvDouble)
  }

  predicate ValidEnum(e: Enum, v: Const) {
    && v.tag == CvIdentifier
    && var n := QualifiedName(v.ident);
    && n.Ok?
    && exists c :: c in e.constants && c.name == n.value
  }

  predicate Validate(t: Type, v: Const)
    decreases v, t
  {
    match t
    case Basic(b) => ValidBasic(b, v)
    case Enumeration(e) => ValidEnum(e, v)
    case Struct(_, ms, _) =>
      v.tag == CvMap && forall i | 0 <= i < |v.entries| ::
        && v.entries[i].key.tag == CvString
        && var ft := MemberType(ms, v.entries[i].key.str);
        && ft.Some? && Validate(ft.value, v.entries[i].val)
    case Map(k, x) =>
      forall i | 0 <= i < |v.entries| :: Validate(k, v.entries[i].key) && Validate(x, v.entries[i].val)
    case List(e) => forall i | 0 <= i < |v.elems| :: Validate(e, v.elems[i])
    case Set(e) => forall i | 0 <= i < |v.elems| :: Validate(e, v.elems[i])
    case Typedef(_) => true
  }

  // ----- The generators -----

  datatype Lang = Cpp | Python

  /** Does rendering a base value reach a throw? `uuidOk` is boost's string_generator. */
  predicate BasicRenders(lang: Lang, uuidOk: string -> bool, b: Base, v: Const) {
    if b in {Str, StaticConstString, Xml, IPAddr} then true
    else if b == Uuid then lang == Python || uuidOk(v.str)
    else if b in {Bool, Byte, I16, I32, I64, U16, U32, U64, IPv4} then Integer(v).Ok?
    else if b == Double then v.tag == CvInteger ==> Integer(v).Ok?
    else false
  }

  /** print_const_value / render_const_value of C++, render_const_value of Python: no throw is reached. */
  predicate Renders(lang: Lang, uuidOk: string -> bool, t: Type, v: Const)
    decreases v, t
  {
    match t
    case Basic(b) => BasicRenders(lang, uuidOk, b, v)
    case Enumeration(_) => Integer(v).Ok?
    case Struct(_, ms, _) =>
      forall i | 0 <= i < |v.entries| ::
        var ft := MemberType(ms, v.entries[i].key.str);
        ft.Some? && Renders(lang, uuidOk, ft.value, v.entries[i].val)
    case Map(k, x) =>
      forall i | 0 <= i < |v.entries| ::
        Renders(lang, uuidOk, k, v.entries[i].key) && Renders(lang, uuidOk, x, v.entries[i].val)
    case List(e) => forall i | 0 <= i < |v.elems| :: Renders(lang, uuidOk, e, v.elems[i])
    case Set(e) => forall i | 0 <= i < |v.elems| :: Renders(lang, uuidOk, e, v.elems[i])
    case Typedef(u) => Renders(lang, uuidOk, u, v)
  }

  /** Every UUID literal of the value is well formed. */
  predicate UuidsOk(uuidOk: string -> bool, t: Type, v: Const)
    decreases v, t
  {
    match t
    case Basic(b) => b == Uuid ==> uuidOk(v.str)
    case Enumeration(_) => true
    case Struct(_, ms, _) =>
      forall i | 0 <= i < |v.entries| ::
        var ft := MemberType(ms, v.entries[i].key.str);
        ft.Some? ==> UuidsOk(uuidOk, ft.value, v.entries[i].val)
    case Map(k, x) =>
      forall i | 0 <= i < |v.entries| ::
        UuidsOk(uuidOk, k, v.entries[i].key) && UuidsOk(uuidOk, x, v.entries[i].val)
    case List(e) => forall i | 0 <= i < |v.elems| :: UuidsOk(uuidOk, e, v.elems[i])
    case Set(e) => forall i | 0 <= i < |v.elems| :: UuidsOk(uuidOk, e, v.elems[i])
    case Typedef(u) => UuidsOk(uuidOk, u, v)
  }

  // ----- When the generators throw -----

  predicate Renderable(b: Base) {
    b in {Str, StaticConstString, Xml, IPAddr, Uuid, Bool, Byte, I16, I32, I64, U16, U32, U64, IPv4, Double}
  }

  /** An identifier that stands for a number has an enum attached, with its last name in it. */
  predicate Found(v: Const) {
    v.tag == CvIdentifier ==> v.enum.Some? && exists c :: c in v.enum.value.constants && c.name == LastName(v.ident)
  }

  /** Every number the generators ask for is found. */
  predicate NamesOk(t: Type, v: Const)
    decreases v, t
  {
    match t
    case Basic(b) => b in {Bool, Byte, I16, I32, I64, U16, U32, U64, IPv4} ==> Found(v)
    case Enumeration(_) => Found(v)
    case Struct(_, ms, _) =>
      forall i | 0 <= i < |v.entries| ::
        var ft := MemberType(ms, v.entries[i].key.str);
        ft.Some? ==> NamesOk(ft.value, v.entries[i].val)
    case Map(k, x) => forall i | 0 <= i < |v.entries| :: NamesOk(k, v.entries[i].key) && NamesOk(x, v.entries[i].val)
    case List(e) => forall i | 0 <= i < |v.elems| :: NamesOk(e, v.elems[i])
    case Set(e) => forall i | 0 <= i < |v.elems| :: NamesOk(e, v.elems[i])
    case Typedef(u) => NamesOk(u, v)
  }

  /** Known members only, and only base types that have constants. */
  predicate Shaped(t: Type, v: Const)
    decreases v, t
  {
    match t
    case Basic(b) => Renderable(b)
    case Enumeration(_) => true
    case Struct(_, ms, _) =>
      forall i | 0 <= i < |v.entries| ::
        var ft := MemberType(ms, v.entries[i].key.str);
        ft.Some? && Shaped(ft.value, v.entries[i].val)
    case Map(k, x) => forall i | 0 <= i < |v.entries| :: Shaped(k, v.entries[i].key) && Shaped(x, v.entries[i].val)
    case List(e) => forall i | 0 <= i < |v.elems| :: Shaped(e, v.elems[i])
    case Set(e) => forall i | 0 <= i < |v.elems| :: Shaped(e, v.elems[i])
    case Typedef(u) => Shaped(u, v)
  }

  /** The part of the value that stands behind a typedef, which nobody has checked, is shaped. */
  predicate Behind(t: Type, v: Const)
    decreases v, t
  {
    match t
    case Basic(_) => true
    case Enumeration(_) => true
    case Struct(_, ms, _) =>
      forall i | 0 <= i < |v.entries| ::
        var ft := MemberType(ms, v.entries[i].key.str);
        ft.Some? ==> Behind(ft.value, v.entries[i].val)
    case Map(k, x) => forall i | 0 <= i < |v.entries| :: Behind(k, v.entries[i].key) && Behind(x, v.entries[i].val)
    case List(e) => forall i | 0 <= i < |v.elems| :: Behind(e, v.elems[i])
    case Set(e) => forall i | 0 <= i < |v.elems| :: Behind(e, v.elems[i])
    case Typedef(u) => Shaped(u, v)
  }

  lemma IntegerFinds(v: Const)
    ensures Integer(v).Ok? <==> Found(v)
  {
    if v.tag == CvIdentifier && v.enum.Some? {
      var c := ByName(v.enum.value.constants, LastName(v.ident));
      if c.Some? {
        assert c.value in v.enum.value.constants;
      }
    }
  }

  lemma BasicExactly(uuidOk: string -> bool, b: Base, v: Const)
    ensures BasicRenders(Python, uuidOk, b, v) <==> Shaped(Basic(b), v) && NamesOk(Basic(b), v)
    ensures BasicRenders(Cpp, uuidOk, b, v) <==> Shaped(Basic(b), v) && NamesOk(Basic(b), v) && UuidsOk(uuidOk, Basic(b), v)
  {
    hide Found;
    IntegerFinds(v);
  }

  /** Rendering asks for three independent things. */
  predicate Exact(uuidOk: string -> bool, t: Type, v: Const) {
    && (Renders(Python, uuidOk, t, v) <==> Shaped(t, v) && NamesOk(t, v))
    && (Renders(Cpp, uuidOk, t, v) <==> Shaped(t, v) && NamesOk(t, v) && UuidsOk(uuidOk, t, v))
  }

  /** For every type and every value, checked or not. */
  lemma {:induction false} RendersExactly(uuidOk: string -> bool, t: Type, v: Const)
    ensures Exact(uuidOk, t, v)
    decreases v, t
  {
    hide Found, Integer, BasicRenders;
    match t {
      case Basic(b) => BasicExactly(uuidOk, b, v);
      case Enumeration(_) => IntegerFinds(v);
      case Struct(_, ms, _) =>
        forall i | 0 <= i < |v.entries| && MemberType(ms, v.entries[i].key.str).Some?
          ensures Exact(uuidOk, MemberType(ms, v.entries[i].key.str).value, v.entries[i].val)
        {
          RendersExactly(uuidOk, MemberType(ms, v.entries[i].key.str).value, v.entries[i].val);
        }
      case Map(k, x) =>
        forall i | 0 <= i < |v.entries| ensures Exact(uuidOk, k, v.entries[i].key) && Exact(uuidOk, x, v.entries[i].val) {
          RendersExactly(uuidOk, k, v.entries[i].key);
          RendersExactly(uuidOk, x, v.entries[i].val);
        }
      case List(e) =>
        forall i | 0 <= i < |v.elems| ensures Exact(uuidOk, e, v.elems[i]) { RendersExactly(uuidOk, e, v.elems[i]); }
      case Set(e) =>
        forall i | 0 <= i < |v.elems| ensures Exact(uuidOk, e, v.elems[i]) { RendersExactly(uuidOk, e, v.elems[i]); }
      case Typedef(u) => RendersExactly(uuidOk, u, v);
    }
  }

  /** The validator checks the shape of everything but what is behind a typedef. */
  lemma {:induction false} ValidShape(t: Type, v: Const)
    requires Validate(t, v)
    ensures Shaped(t, v) <==> Behind(t, v)
    decreases v, t
  {
    match t {
      case Basic(_) =>
      case Enumeration(_) =>
      case Struct(_, ms, _) =>
        forall i | 0 <= i < |v.entries|
          ensures var ft := MemberType(ms, v.entries[i].key.str).value;
                  Shaped(ft, v.entries[i].val) <==> Behind(ft, v.entries[i].val)
        {
          ValidShape(MemberType(ms, v.entries[i].key.str).value, v.entries[i].val);
        }
      case Map(k, x) =>
        forall i | 0 <= i < |v.entries|
          ensures Shaped(k, v.entries[i].key) <==> Behind(k, v.entries[i].key)
          ensures Shaped(x, v.entries[i].val) <==> Behind(x, v.entries[i].val)
        {
          ValidShape(k, v.entries[i].key);
          ValidShape(x, v.entries[i].val);
        }
      case List(e) =>
        forall i | 0 <= i < |v.elems| ensures Shaped(e, v.elems[i]) <==> Behind(e, v.elems[i]) { ValidShape(e, v.elems[i]); }
      case Set(e) =>
        forall i | 0 <= i < |v.elems| ensures Shaped(e, v.elems[i]) <==> Behind(e, v.elems[i]) { ValidShape(e, v.elems[i]); }
      case Typedef(_) =>
    }
  }

  /** The exact rule, for every type and every value that validates: a generator throws iff some
      number is not found, or something behind a typedef is misshapen, or, in C++, a UUID literal
      is malformed. */
  lemma ThrowsExactly(uuidOk: string -> bool, t: Type, v: Const)
    requires Validate(t, v)
    ensures Renders(Python, uuidOk, t, v) <==> NamesOk(t, v) && Behind(t, v)
    ensures Renders(Cpp, uuidOk, t, v) <==> NamesOk(t, v) && Behind(t, v) && UuidsOk(uuidOk, t, v)
  {
    RendersExactly(uuidOk, t, v);
    ValidShape(t, v);
  }

  predicate TypedefFree(t: Type) {
    match t
    case Basic(_) => true
    case Enumeration(_) => true
    case Struct(_, ms, _) => forall i | 0 <= i < |ms| :: TypedefFree(ms[i].ty)
    case Map(k, v) => TypedefFree(k) && TypedefFree(v)
    case List(e) => TypedefFree(e)
    case Set(e) => TypedefFree(e)
    case Typedef(_) => false
  }

  lemma {:induction false} NothingBehind(t: Type, v: Const)
    requires TypedefFree(t)
    ensures Behind(t, v)
    decreases v, t
  {
    match t {
      case Basic(_) =>
      case Enumeration(_) =>
      case Struct(_, ms, _) =>
        forall i | 0 <= i < |v.entries| && MemberType(ms, v.entries[i].key.str).Some?
          ensures Behind(MemberType(ms, v.entries[i].key.str).value, v.entries[i].val)
        {
          NothingBehind(MemberType(ms, v.entries[i].key.str).value, v.entries[i].val);
        }
      case Map(k, x) =>
        forall i | 0 <= i < |v.entries| ensures Behind(k, v.entries[i].key) && Behind(x, v.entries[i].val) {
          NothingBehind(k, v.entries[i].key);
          NothingBehind(x, v.entries[i].val);
        }
      case List(e) =>
        forall i | 0 <= i < |v.elems| ensures Behind(e, v.elems[i]) { NothingBehind(e, v.elems[i]); }
      case Set(e) =>
        forall i | 0 <= i < |v.elems| ensures Behind(e, v.elems[i]) { NothingBehind(e, v.elems[i]); }
    }
  }

  /** Without typedefs, only the names and the UUID literals matter. */
  lemma TypedefFreeRule(uuidOk: string -> bool, t: Type, v: Const)
    requires TypedefFree(t) && Validate(t, v)
    ensures Renders(Python, uuidOk, t, v) <==> NamesOk(t, v)
    ensures Renders(Cpp, uuidOk, t, v) <==> NamesOk(t, v) && UuidsOk(uuidOk, t, v)
  {
    ThrowsExactly(uuidOk, t, v);
    NothingBehind(t, v);
  }

  // ----- What resolution attaches -----

  /** `w` is what resolution makes of `v`: an enum position gets the enum of its type, the type of a
      member being that of the first in key order; below an exception or a typedef nothing changes. */
  predicate Attached(t: Type, v: Const, w: Const)
    decreases v, t
  {
    match t
    case Enumeration(e) => w.tag == CvIdentifier && w.enum == Some(e) && (v.tag == CvIdentifier ==> w.ident == v.ident)
    case Struct(x, _, sorted) =>
      if x then v.tag != CvIdentifier ==> w == v
      else
        |w.entries| == |v.entries| && forall i | 0 <= i < |v.entries| ::
          var f := FieldByName(sorted, v.entries[i].key.str);
          w.entries[i].key == v.entries[i].key && f.Some? && Attached(f.value.ty, v.entries[i].val, w.entries[i].val)
    case Map(k, x) =>
      |w.entries| == |v.entries| && forall i | 0 <= i < |v.entries| ::
        Attached(k, v.entries[i].key, w.entries[i].key) && Attached(x, v.entries[i].val, w.entries[i].val)
    case List(e) => |w.elems| == |v.elems| && forall i | 0 <= i < |v.elems| :: Attached(e, v.elems[i], w.elems[i])
    case Set(e) => |w.elems| == |v.elems| && forall i | 0 <= i < |v.elems| :: Attached(e, v.elems[i], w.elems[i])
    case _ => v.tag != CvIdentifier ==> w == v
  }

  lemma {:induction false} ResolveAttaches(scope: Scope, v: Const, t: Type)
    requires Resolve(scope, v, t).Ok?
    ensures Attached(t, v, Resolve(scope, v, t).value)
    decreases v, 1
  {
    hide ResolveEntry, ResolveEntries, ResolveElems;
    var w := Resolve(scope, v, t).value;
    if Descends(t) {
      ResolvedEntries(scope, v, t);
      forall i | 0 <= i < |v.entries| ensures EntryAttached(t, v.entries[i], w.entries[i]) {
        EntryAttaches(scope, v, t, i);
      }
    } else if t.List? || t.Set? {
      ResolvedElems(scope, v, t);
      forall i | 0 <= i < |v.elems| ensures Attached(t.elem, v.elems[i], w.elems[i]) {
        ResolveAttaches(scope, v.elems[i], t.elem);
      }
    }
  }

  /** Resolution as a `t` goes into the entries of a map. */
  predicate Descends(t: Type) { t.Map? || (t.Struct? && !t.xception) }

  predicate EntryAttached(t: Type, a: Entry, b: Entry)
    requires Descends(t)
  {
    if t.Map? then Attached(t.key, a.key, b.key) && Attached(t.val, a.val, b.val)
    else
      var f := FieldByName(t.sorted, a.key.str);
      b.key == a.key && f.Some? && Attached(f.value.ty, a.val, b.val)
  }

  lemma {:induction false} EntryAttaches(scope: Scope, v: Const, t: Type, i: nat)
    requires Descends(t) && i < |v.entries| && ResolveEntry(scope, v, t, i).Ok?
    ensures EntryAttached(t, v.entries[i], ResolveEntry(scope, v, t, i).value)
    decreases v, 0
  {
    hide Resolve, Attached;
    if t.Map? {
      ResolveAttaches(scope, v.entries[i].key, t.key);
      ResolveAttaches(scope, v.entries[i].val, t.val);
    } else {
      ResolveAttaches(scope, v.entries[i].val, FieldByName(t.sorted, v.entries[i].key.str).value.ty);
    }
  }

  lemma ResolvedEntries(scope: Scope, v: Const, t: Type)
    requires Descends(t) && Resolve(scope, v, t).Ok?
    ensures var w := Resolve(scope, v, t).value;
            |w.entries| == |v.entries| && forall i | 0 <= i < |v.entries| :: ResolveEntry(scope, v, t, i) == Ok(w.entries[i])
  {
    hide ResolveEntry, ResolveEntries, ResolveElems;
    EntriesAre(scope, v, t, 0);
  }

  lemma ResolvedElems(scope: Scope, v: Const, t: Type)
    requires (t.List? || t.Set?) && Resolve(scope, v, t).Ok?
    ensures var w := Resolve(scope, v, t).value;
            |w.elems| == |v.elems| && forall i | 0 <= i < |v.elems| :: Resolve(scope, v.elems[i], t.elem) == Ok(w.elems[i])
  {
    hide ResolveElems, ResolveEntries;
    ElemsAre(scope, v, t.elem, 0);
  }

  /** Elements are resolved one by one. */
  lemma {:induction false} ElemsAre(scope: Scope, v: Const, t: Type, i: nat)
    requires i <= |v.elems| && ResolveElems(scope, v, t, i).Ok?
    ensures var es := ResolveElems(scope, v, t, i).value;
            |es| == |v.elems| - i && forall j | i <= j < |v.elems| :: Resolve(scope, v.elems[j], t) == Ok(es[j - i])
    decreases |v.elems| - i
  {
    hide Resolve;
    if i < |v.elems| {
      ElemsAre(scope, v, t, i + 1);
    }
  }

  lemma {:induction false} EntriesAre(scope: Scope, v: Const, t: Type, i: nat)
    requires (t.Map? || t.Struct?) && i <= |v.entries| && ResolveEntries(scope, v, t, i).Ok?
    ensures var es := ResolveEntries(scope, v, t, i).value;
            |es| == |v.entries| - i && forall j | i <= j < |v.entries| :: ResolveEntry(scope, v, t, j) == Ok(es[j - i])
    decreases |v.entries| - i
  {
    hide ResolveEntry;
    if i < |v.entries| {
      EntriesAre(scope, v, t, i + 1);
    }
  }

  // ----- Soundness -----

  /** No exception; members of one name, if any, agree in the type that the first in key order and
      the last declared give it; no enumerator has a dot in its name. */
  predicate Plain(t: Type) {
    match t
    case Basic(_) => true
    case Enumeration(e) => forall i | 0 <= i < |e.constants| :: '.' !in e.constants[i].name
    case Struct(x, ms, sorted) =>
      && !x
      && (forall i | 0 <= i < |ms| :: Plain(ms[i].ty))
      && (forall f | f in sorted :: MemberType(ms, f.name) == Some(FieldByName(sorted, f.name).value.ty))
    case Map(k, v) => Plain(k) && Plain(v)
    case List(e) => Plain(e)
    case Set(e) => Plain(e)
    case Typedef(u) => Plain(u)
  }

  /** The resolver and the others mean the same type. */
  lemma SameField(t: Type, name: string)
    requires Plain(t) && t.Struct? && FieldByName(t.sorted, name).Some?
    ensures MemberType(t.members, name) == Some(FieldByName(t.sorted, name).value.ty)
    ensures Plain(FieldByName(t.sorted, name).value.ty)
    ensures TypedefFree(t) ==> TypedefFree(FieldByName(t.sorted, name).value.ty)
  {
    var f := FieldByName(t.sorted, name).value;
    assert f in t.sorted && f.name == name;
  }

  /** In plain types the validator's split of a name finds what the generators' split looks for. */
  lemma {:induction false} ValidNames(t: Type, v: Const, w: Const)
    requires TypedefFree(t) && Plain(t) && Attached(t, v, w) && Validate(t, w)
    ensures NamesOk(t, w)
    decreases v, t
  {
    match t {
      case Basic(_) =>
      case Enumeration(e) =>
        var c :| c in e.constants && c.name == QualifiedName(w.ident).value;
        SplittingsAgree(w.ident);
      case Struct(_, ms, sorted) =>
        forall i | 0 <= i < |w.entries| ensures NamesOk(MemberType(ms, w.entries[i].key.str).value, w.entries[i].val) {
          SameField(t, v.entries[i].key.str);
          ValidNames(MemberType(ms, w.entries[i].key.str).value, v.entries[i].val, w.entries[i].val);
        }
      case Map(k, x) =>
        forall i | 0 <= i < |w.entries| ensures NamesOk(k, w.entries[i].key) && NamesOk(x, w.entries[i].val) {
          ValidNames(k, v.entries[i].key, w.entries[i].key);
          ValidNames(x, v.entries[i].val, w.entries[i].val);
        }
      case List(e) =>
        forall i | 0 <= i < |w.elems| ensures NamesOk(e, w.elems[i]) { ValidNames(e, v.elems[i], w.elems[i]); }
      case Set(e) =>
        forall i | 0 <= i < |w.elems| ensures NamesOk(e, w.elems[i]) { ValidNames(e, v.elems[i], w.elems[i]); }
    }
  }

  /** Soundness: what resolves and validates never makes a generator throw, save that C++ refuses a
      malformed UUID literal. */
  lemma Soundness(scope: Scope, uuidOk: string -> bool, t: Type, v: Const)
    requires TypedefFree(t) && Plain(t) && Resolve(scope, v, t).Ok? && Validate(t, Resolve(scope, v, t).value)
    ensures var w := Resolve(scope, v, t).value;
            Renders(Python, uuidOk, t, w) && (Renders(Cpp, uuidOk, t, w) <==> UuidsOk(uuidOk, t, w))
  {
    ResolveAttaches(scope, v, t);
    ValidNames(t, v, Resolve(scope, v, t).value);
    TypedefFreeRule(uuidOk, t, Resolve(scope, v, t).value);
  }

  // ----- Slots -----

  /** The representations of a value; the tag says which one is live. */
  datatype Slot =
    | NumSlot(num: int) | DblSlot(dbl: real) | StrSlot(str: string)
    | MapSlot(entries: seq<Entry>) | ListSlot(elems: seq<Const>) | IdentSlot(ident: string)

  function Live(v: Const): Slot {
    match v.tag
    case CvInteger => NumSlot(v.num)
    case CvDouble => DblSlot(v.dbl)
    case CvString => StrSlot(v.str)
    case CvMap => MapSlot(v.entries)
    case CvList => ListSlot(v.elems)
    case CvIdentifier => IdentSlot(v.ident)
  }

  /** The slot both generators read for a base type, if they have constants of it. */
  function Printed(b: Base, v: Const): Option<Slot> {
    if b in {Str, StaticConstString, Xml, Uuid, IPAddr} then Some(StrSlot(v.str))
    else if b in {Bool, Byte, I16, I32, I64, U16, U32, U64, IPv4} then
      if v.tag == CvIdentifier then None else Some(NumSlot(v.num))
    else if b == Double then Some(if v.tag == CvInteger then NumSlot(v.num) else DblSlot(v.dbl))
    else None
  }

  /** The validator accepts a base value exactly when what would be printed is live. It knows no
      constants of two types the generators do print. */
  lemma BaseValidIffLive(b: Base, v: Const)
    ensures Validate(Basic(b), v) <==> Some(Live(v)) == Printed(b, v) && b != Xml && b != IPv4
    ensures v.tag != CvIdentifier ==> forall uuidOk :: Renders(Python, uuidOk, Basic(b), v) <==> Printed(b, v).Some?
  {
  }

  /** Everything that would be rendered is live and of its type. */
  predicate FitsLive(t: Type, v: Const)
    decreases v, t
  {
    match t
    case Basic(b) => Some(Live(v)) == Printed(b, v) && b != Xml && b != IPv4
    case Enumeration(e) =>
      Live(v).IdentSlot? && exists c :: c in e.constants && QualifiedName(Live(v).ident) == Ok(c.name)
    case Struct(_, ms, _) =>
      Live(v).MapSlot? && forall i | 0 <= i < |v.entries| ::
        var ft := MemberType(ms, v.entries[i].key.str);
        Live(v.entries[i].key) == StrSlot(v.entries[i].key.str) && ft.Some? && FitsLive(ft.value, v.entries[i].val)
    case Map(k, x) =>
      Live(v).MapSlot? && forall i | 0 <= i < |v.entries| :: FitsLive(k, v.entries[i].key) && FitsLive(x, v.entries[i].val)
    case List(e) => Live(v).ListSlot? && forall i | 0 <= i < |v.elems| :: FitsLive(e, v.elems[i])
    case Set(e) => Live(v).ListSlot? && forall i | 0 <= i < |v.elems| :: FitsLive(e, v.elems[i])
    case Typedef(_) => true
  }

  /** Where a map, list or set is declared, one was given. */
  predicate Tagged(t: Type, v: Const)
    decreases v, t
  {
    match t
    case Basic(_) => true
    case Enumeration(_) => true
    case Struct(_, ms, _) =>
      forall i | 0 <= i < |v.entries| ::
        var ft := MemberType(ms, v.entries[i].key.str);
        ft.Some? ==> Tagged(ft.value, v.entries[i].val)
    case Map(k, x) =>
      v.tag == CvMap && forall i | 0 <= i < |v.entries| :: Tagged(k, v.entries[i].key) && Tagged(x, v.entries[i].val)
    case List(e) => v.tag == CvList && forall i | 0 <= i < |v.elems| :: Tagged(e, v.elems[i])
    case Set(e) => v.tag == CvList && forall i | 0 <= i < |v.elems| :: Tagged(e, v.elems[i])
    case Typedef(_) => true
  }

  ghost predicate ValidRight(t: Type, v: Const) { FitsLive(t, v) <==> Validate(t, v) && Tagged(t, v) }

  /** At every depth, up to typedefs: the validator accepts exactly what fits, but for the tags of
      containers, which it does not look at. */
  lemma {:induction false} ValidIffFits(t: Type, v: Const)
    ensures ValidRight(t, v)
    decreases v, t
  {
    hide ValidBasic, Printed, QualifiedName;
    match t {
      case Basic(b) => BaseValidIffLive(b, v);
      case Enumeration(e) =>
      case Struct(_, ms, _) =>
        forall i | 0 <= i < |v.entries| && MemberType(ms, v.entries[i].key.str).Some?
          ensures ValidRight(MemberType(ms, v.entries[i].key.str).value, v.entries[i].val)
        {
          ValidIffFits(MemberType(ms, v.entries[i].key.str).value, v.entries[i].val);
        }
      case Map(k, x) =>
        forall i | 0 <= i < |v.entries| ensures ValidRight(k, v.entries[i].key) && ValidRight(x, v.entries[i].val) {
          ValidIffFits(k, v.entries[i].key);
          ValidIffFits(x, v.entries[i].val);
        }
      case List(e) =>
        forall i | 0 <= i < |v.elems| ensures ValidRight(e, v.elems[i]) { ValidIffFits(e, v.elems[i]); }
      case Set(e) =>
        forall i | 0 <= i < |v.elems| ensures ValidRight(e, v.elems[i]) { ValidIffFits(e, v.elems[i]); }
      case Typedef(_) =>
    }
  }

  /** So a number is accepted for a list, and the empty list it has beside the number is rendered. */
  lemma NumberForList(uuidOk: string -> bool)
    ensures var t, v := List(Basic(I32)), Const(CvInteger, 5, 0.0, "", "", None, [], []);
            Validate(t, v) && !Tagged(t, v) && Renders(Cpp, uuidOk, t, v) && Live(v) == NumSlot(5)
  {
  }

  /** A name that stands for a constant of a base type takes over what is live in the constant, unless
      the type is one that resolution does not copy, or an integer was given for a double. */
  lemma LookupTakesLive(scope: Scope, v: Const, b: Base)
    requires v.ident in scope && TrueType(scope[v.ident].ty) == Basic(b) && Validate(Basic(b), scope[v.ident].value)
    requires v.tag == CvIdentifier
    ensures var c := scope[v.ident].value;
            && Lookup(scope, v).Ok?
            && (Live(Lookup(scope, v).value) == Live(c) <==>
                  b !in {Uuid, IPAddr} && (b == Double ==> c.tag == CvDouble))
            && (b in {Uuid, IPAddr} ==> Lookup(scope, v).value == v)
  {
  }

  /** The type behind all typedefs. */
  lemma TrueTypeIsTrue(t: Type)
    ensures !TrueType(t).Typedef? && TrueType(Typedef(t)) == TrueType(t) && (!t.Typedef? ==> TrueType(t) == t)
  {
  }

  /** An unknown name throws, and so does a constant of type void. */
  lemma LookupThrows(scope: Scope, v: Const)
    ensures v.ident !in scope ==> Lookup(scope, v).Throw?
    ensures v.ident in scope && TrueType(scope[v.ident].ty) == Basic(Void) ==> Lookup(scope, v).Throw?
    ensures v.ident in scope && !TrueType(scope[v.ident].ty).Basic? ==> Lookup(scope, v).Ok?
  {
  }

  /** A name that stands for a map or list constant takes over its entries or elements. */
  lemma LookupTakesContainers(scope: Scope, v: Const)
    requires v.ident in scope && Fresh(v) && v.entries == [] && v.elems == []
    ensures TrueType(scope[v.ident].ty).Map? ==>
              Lookup(scope, v).Ok? && Live(Lookup(scope, v).value) == MapSlot(scope[v.ident].value.entries)
    ensures TrueType(scope[v.ident].ty).List? ==>
              Lookup(scope, v).Ok? && Live(Lookup(scope, v).value) == ListSlot(scope[v.ident].value.elems)
  {
    assert [] + scope[v.ident].value.entries == scope[v.ident].value.entries;
    assert [] + scope[v.ident].value.elems == scope[v.ident].value.elems;
  }

  /** A number given for an enum keeps its value under the name found for it; it is refused exactly
      when no enumerator has that value. */
  lemma EnumNumberKept(scope: Scope, e: Enum, v: Const)
    requires v.tag != CvIdentifier
    requires forall i | 0 <= i < |e.constants| :: '.' !in e.constants[i].name
    requires forall i, j | 0 <= i < j < |e.constants| :: e.constants[i].name != e.constants[j].name
    ensures var w := Resolve(scope, v, Enumeration(e));
            && (w.Ok? <==> exists c :: c in e.constants && c.value == v.num)
            && (w.Ok? ==> Integer(w.value) == Ok(v.num))
            && (w.Ok? && '.' !in e.name ==> Validate(Enumeration(e), w.value))
  {
    hide LastName, QualifiedName;
    var c := ByValue(e.constants, v.num);
    if c.Some? {
      assert c.value in e.constants;
      LastPart(e.name, c.value.name);
      if '.' !in e.name {
        QualifiedParts("", e.name, c.value.name);
      }
      var d := ByName(e.constants, c.value.name);
      assert d.Some?;
    }
  }

  // ----- Exceptions and repeated names, exactly -----

  /** As parsed: no enum is attached anywhere. */
  predicate Fresh(v: Const) {
    && v.enum.None?
    && (forall i | 0 <= i < |v.entries| :: Fresh(v.entries[i].key) && Fresh(v.entries[i].val))
    && forall i | 0 <= i < |v.elems| :: Fresh(v.elems[i])
  }

  /** Nothing in the value stands at an enum position. */
  predicate EnumFree(t: Type, v: Const)
    decreases v, t
  {
    match t
    case Basic(_) => true
    case Enumeration(_) => false
    case Struct(_, ms, _) =>
      forall i | 0 <= i < |v.entries| ::
        var ft := MemberType(ms, v.entries[i].key.str);
        ft.Some? ==> EnumFree(ft.value, v.entries[i].val)
    case Map(k, x) => forall i | 0 <= i < |v.entries| :: EnumFree(k, v.entries[i].key) && EnumFree(x, v.entries[i].val)
    case List(e) => forall i | 0 <= i < |v.elems| :: EnumFree(e, v.elems[i])
    case Set(e) => forall i | 0 <= i < |v.elems| :: EnumFree(e, v.elems[i])
    case Typedef(u) => EnumFree(u, v)
  }

  lemma {:induction false} FreshNames(t: Type, v: Const)
    requires TypedefFree(t) && Fresh(v) && Validate(t, v)
    ensures NamesOk(t, v) <==> EnumFree(t, v)
    decreases v, t
  {
    match t {
      case Basic(_) =>
      case Enumeration(_) =>
      case Struct(_, ms, _) =>
        forall i | 0 <= i < |v.entries|
          ensures var ft := MemberType(ms, v.entries[i].key.str).value;
                  NamesOk(ft, v.entries[i].val) <==> EnumFree(ft, v.entries[i].val)
        {
          FreshNames(MemberType(ms, v.entries[i].key.str).value, v.entries[i].val);
        }
      case Map(k, x) =>
        forall i | 0 <= i < |v.entries|
          ensures NamesOk(k, v.entries[i].key) <==> EnumFree(k, v.entries[i].key)
          ensures NamesOk(x, v.entries[i].val) <==> EnumFree(x, v.entries[i].val)
        {
          FreshNames(k, v.entries[i].key);
          FreshNames(x, v.entries[i].val);
        }
      case List(e) =>
        forall i | 0 <= i < |v.elems| ensures NamesOk(e, v.elems[i]) <==> EnumFree(e, v.elems[i]) { FreshNames(e, v.elems[i]); }
      case Set(e) =>
        forall i | 0 <= i < |v.elems| ensures NamesOk(e, v.elems[i]) <==> EnumFree(e, v.elems[i]) { FreshNames(e, v.elems[i]); }
    }
  }

  // ----- The rule on the value as parsed -----

  /** The identifier of an enum constant after resolution against enum `e`. */
  function ResolvedIdent(e: Enum, v: Const): string {
    if v.tag == CvIdentifier then v.ident
    else
      var c := ByValue(e.constants, v.num);
      e.name + "." + if c.Some? then c.value.name else ""
  }

  /** The value is replaced by the constant it names. */
  predicate Copied(r: Type, v: Const) {
    v.tag == CvIdentifier && (r.Basic? || r.Typedef? || (r.Struct? && r.xception))
  }

  /** `v`, resolved as an `r` and rendered as a `u`, has every number found. The two types differ only
      below repeated member names. Where their kinds differ, and below an exception, resolution touches
      nothing that is rendered, so no enum may stand there. */
  predicate Lands(scope: Scope, r: Type, u: Type, v: Const)
    decreases v
  {
    if Copied(r, v) then Lookup(scope, v).Ok? ==> NamesOk(u, Lookup(scope, v).value)
    else
      match u
      case Basic(_) => true
      case Enumeration(_) =>
        r.Enumeration? && exists c :: c in r.enum.constants && c.name == LastName(ResolvedIdent(r.enum, v))
      case Struct(_, _, _) =>
        if Descends(r) then forall i | 0 <= i < |v.entries| :: EntryLands(scope, r, u, v.entries[i]) else EnumFree(u, v)
      case Map(_, _) =>
        if Descends(r) then forall i | 0 <= i < |v.entries| :: EntryLands(scope, r, u, v.entries[i]) else EnumFree(u, v)
      case List(e) =>
        if r.List? || r.Set? then forall i | 0 <= i < |v.elems| :: Lands(scope, r.elem, e, v.elems[i]) else EnumFree(u, v)
      case Set(e) =>
        if r.List? || r.Set? then forall i | 0 <= i < |v.elems| :: Lands(scope, r.elem, e, v.elems[i]) else EnumFree(u, v)
      case Typedef(_) => true
  }

  predicate EntryLands(scope: Scope, r: Type, u: Type, a: Entry)
    requires Descends(r) && (u.Struct? || u.Map?)
    decreases a
  {
    var f := if r.Struct? then FieldByName(r.sorted, a.key.str) else None;
    if u.Map? then
      if r.Map? then Lands(scope, r.key, u.key, a.key) && Lands(scope, r.val, u.val, a.val)
      else EnumFree(u.key, a.key) && (f.Some? ==> Lands(scope, f.value.ty, u.val, a.val))
    else if r.Map? then
      var k := Resolve(scope, a.key, r.key);
      k.Ok? ==>
        var ft := MemberType(u.members, k.value.str);
        ft.Some? ==> Lands(scope, r.val, ft.value, a.val)
    else
      var ft := MemberType(u.members, a.key.str);
      ft.Some? && f.Some? ==> Lands(scope, f.value.ty, ft.value, a.val)
  }

  /** What the generators ask of one entry. */
  predicate EntryNames(u: Type, b: Entry)
    requires u.Struct? || u.Map?
  {
    if u.Map? then NamesOk(u.key, b.key) && NamesOk(u.val, b.val)
    else
      var ft := MemberType(u.members, b.key.str);
      ft.Some? ==> NamesOk(ft.value, b.val)
  }

  ghost predicate LandsRight(scope: Scope, r: Type, u: Type, v: Const, w: Const) {
    NamesOk(u, w) <==> Lands(scope, r, u, v)
  }

  /** Resolution and validation together decide about names as Lands says. */
  lemma {:induction false} NamesLand(scope: Scope, r: Type, u: Type, v: Const)
    requires TypedefFree(u) && Fresh(v) && Resolve(scope, v, r).Ok? && Validate(u, Resolve(scope, v, r).value)
    ensures LandsRight(scope, r, u, v, Resolve(scope, v, r).value)
    decreases v, 1
  {
    var w := Resolve(scope, v, r).value;
    if Copied(r, v) {
    } else if u.Enumeration? {
      EnumLands(scope, r, u, v);
    } else if u.List? || u.Set? {
      ElemsLand(scope, r, u, v);
    } else if (u.Struct? || u.Map?) && Descends(r) {
      EntriesLand(scope, r, u, v);
    } else if u.Struct? || u.Map? {
      EntriesKept(scope, r, v);
      Untouched(u, v, w);
    }
  }

  lemma EnumLands(scope: Scope, r: Type, u: Type, v: Const)
    requires u.Enumeration? && Fresh(v) && !Copied(r, v) && Resolve(scope, v, r).Ok? && ValidEnum(u.enum, Resolve(scope, v, r).value)
    ensures LandsRight(scope, r, u, v, Resolve(scope, v, r).value)
  {
    hide ResolveEntries, ResolveElems, LastName, QualifiedName;
  }

  /** Where resolution leaves the entries alone. */
  lemma EntriesKept(scope: Scope, r: Type, v: Const)
    requires Resolve(scope, v, r).Ok? && !Copied(r, v) && !r.Map? && (r.Struct? ==> r.xception)
    ensures var w := Resolve(scope, v, r).value; w.entries == v.entries && (w.tag == v.tag || w.tag == CvIdentifier)
  {
    hide ResolveElems;
  }

  lemma ElemsKept(scope: Scope, r: Type, v: Const)
    requires Resolve(scope, v, r).Ok? && !Copied(r, v) && !r.List? && !r.Set?
    ensures Resolve(scope, v, r).value.elems == v.elems
  {
    hide ResolveEntries;
  }

  lemma Untouched(u: Type, v: Const, w: Const)
    requires TypedefFree(u) && Fresh(v) && Validate(u, w)
    requires (u.Struct? || u.Map?) && w.entries == v.entries && (w.tag == v.tag || w.tag == CvIdentifier)
    ensures NamesOk(u, w) <==> EnumFree(u, v)
  {
    assert Validate(u, v);
    assert NamesOk(u, w) <==> NamesOk(u, v);
    FreshNames(u, v);
  }

  lemma {:induction false} ElemsLand(scope: Scope, r: Type, u: Type, v: Const)
    requires TypedefFree(u) && Fresh(v) && Resolve(scope, v, r).Ok? && Validate(u, Resolve(scope, v, r).value)
    requires (u.List? || u.Set?) && !Copied(r, v)
    ensures LandsRight(scope, r, u, v, Resolve(scope, v, r).value)
    decreases v, 0
  {
    hide TypedefFree, Fresh, EnumFree, Found, ResolveElems;
    var w := Resolve(scope, v, r).value;
    FreshElems(u, v);
    if r.List? || r.Set? {
      ResolvedElems(scope, v, r);
      forall i | 0 <= i < |v.elems| ensures LandsRight(scope, r.elem, u.elem, v.elems[i], w.elems[i]) {
        NamesLand(scope, r.elem, u.elem, v.elems[i]);
      }
    } else {
      ElemsKept(scope, r, v);
      ElemsUntouched(u, v, w);
    }
  }

  lemma FreshElems(u: Type, v: Const)
    requires TypedefFree(u) && Fresh(v) && (u.List? || u.Set?)
    ensures TypedefFree(u.elem) && forall i | 0 <= i < |v.elems| :: Fresh(v.elems[i])
  {
  }

  lemma ElemsUntouched(u: Type, v: Const, w: Const)
    requires TypedefFree(u) && Fresh(v) && Validate(u, w) && (u.List? || u.Set?) && w.elems == v.elems
    ensures NamesOk(u, w) <==> EnumFree(u, v)
  {
    hide Fresh, EnumFree, TypedefFree;
    assert Validate(u, v);
    assert NamesOk(u, w) <==> NamesOk(u, v);
    FreshNames(u, v);
  }

  lemma {:induction false} EntriesLand(scope: Scope, r: Type, u: Type, v: Const)
    requires TypedefFree(u) && Fresh(v) && Resolve(scope, v, r).Ok? && Validate(u, Resolve(scope, v, r).value)
    requires (u.Struct? || u.Map?) && Descends(r)
    ensures LandsRight(scope, r, u, v, Resolve(scope, v, r).value)
    decreases v, 0
  {
    hide Resolve, ResolveEntry, Validate, NamesOk, Lands, EntryNames, EntryLands, Fresh, TypedefFree, ValidEntry;
    var w := Resolve(scope, v, r).value;
    ResolvedEntries(scope, v, r);
    FreshEntries(v);
    ValidEntries(u, w);
    forall i | 0 <= i < |v.entries| ensures EntryNames(u, w.entries[i]) <==> EntryLands(scope, r, u, v.entries[i]) {
      EntryLand(scope, r, u, v, i);
    }
    EntriesAsked(u, w);
    EntriesLanding(scope, r, u, v);
  }

  lemma FreshEntries(v: Const)
    requires Fresh(v)
    ensures forall i | 0 <= i < |v.entries| :: Fresh(v.entries[i].key) && Fresh(v.entries[i].val)
  {
  }

  lemma ValidEntries(u: Type, w: Const)
    requires (u.Struct? || u.Map?) && Validate(u, w)
    ensures forall i | 0 <= i < |w.entries| :: ValidEntry(u, w.entries[i])
  {
  }

  lemma EntriesLanding(scope: Scope, r: Type, u: Type, v: Const)
    requires (u.Struct? || u.Map?) && Descends(r)
    ensures Lands(scope, r, u, v) <==> forall i | 0 <= i < |v.entries| :: EntryLands(scope, r, u, v.entries[i])
  {
    hide EntryLands;
  }

  lemma EntriesAsked(u: Type, w: Const)
    requires u.Struct? || u.Map?
    ensures NamesOk(u, w) <==> forall i | 0 <= i < |w.entries| :: EntryNames(u, w.entries[i])
  {
  }

  /** One entry of a validated value. */
  predicate ValidEntry(u: Type, b: Entry)
    requires u.Struct? || u.Map?
  {
    if u.Map? then Validate(u.key, b.key) && Validate(u.val, b.val)
    else
      var ft := MemberType(u.members, b.key.str);
      ft.Some? && Validate(ft.value, b.val)
  }

  lemma {:induction false} EntryLand(scope: Scope, r: Type, u: Type, v: Const, i: nat)
    requires TypedefFree(u) && Descends(r) && (u.Struct? || u.Map?) && i < |v.entries|
    requires Fresh(v.entries[i].key) && Fresh(v.entries[i].val)
    requires ResolveEntry(scope, v, r, i).Ok? && ValidEntry(u, ResolveEntry(scope, v, r, i).value)
    ensures EntryNames(u, ResolveEntry(scope, v, r, i).value) <==> EntryLands(scope, r, u, v.entries[i])
    decreases v, 0, 0
  {
    hide Resolve, Validate, NamesOk, Lands, Fresh, EnumFree;
    var a, b := v.entries[i], ResolveEntry(scope, v, r, i).value;
    var x := if r.Map? then r.val else FieldByName(r.sorted, a.key.str).value.ty;
    if u.Map? {
      if r.Map? {
        NamesLand(scope, r.key, u.key, a.key);
      } else {
        FreshNames(u.key, a.key);
      }
      NamesLand(scope, x, u.val, a.val);
    } else {
      MemberTypedefFree(u, b.key.str);
      NamesLand(scope, x, MemberType(u.members, b.key.str).value, a.val);
    }
  }

  lemma MemberTypedefFree(u: Type, name: string)
    requires u.Struct? && TypedefFree(u) && MemberType(u.members, name).Some?
    ensures TypedefFree(MemberType(u.members, name).value)
  {
  }

  /** The exact rule on the value as parsed, for every type without typedefs: exceptions, repeated names
      and dotted enumerators included, at every depth. */
  lemma ParsedRule(scope: Scope, uuidOk: string -> bool, t: Type, v: Const)
    requires TypedefFree(t) && Fresh(v) && Resolve(scope, v, t).Ok? && Validate(t, Resolve(scope, v, t).value)
    ensures var w := Resolve(scope, v, t).value;
            && (Renders(Python, uuidOk, t, w) <==> Lands(scope, t, t, v))
            && (Renders(Cpp, uuidOk, t, w) <==> Lands(scope, t, t, v) && UuidsOk(uuidOk, t, w))
  {
    hide Resolve, Validate, Renders, NamesOk, Lands, UuidsOk, Fresh, TypedefFree;
    NamesLand(scope, t, t, v);
    TypedefFreeRule(uuidOk, t, Resolve(scope, v, t).value);
  }

  /** A constant of an exception type, as parsed, renders iff it holds no enum at all. */
  lemma ExceptionRule(scope: Scope, uuidOk: string -> bool, t: Type, v: Const)
    requires t.Struct? && t.xception && TypedefFree(t) && Fresh(v) && v.tag != CvIdentifier
    ensures Resolve(scope, v, t) == Ok(v)
    ensures Validate(t, v) ==> (Renders(Python, uuidOk, t, v) <==> EnumFree(t, v))
    ensures Validate(t, v) ==> (Renders(Cpp, uuidOk, t, v) <==> EnumFree(t, v) && UuidsOk(uuidOk, t, v))
  {
    hide Renders, NamesOk, EnumFree, Fresh, UuidsOk, TypedefFree, Validate;
    if Validate(t, v) {
      FreshNames(t, v);
      TypedefFreeRule(uuidOk, t, v);
    }
  }

  /** An enum member whose name is repeated, with enum `r` first in key order and enum `u` declared
      last: it renders iff its last name is an enumerator of `r`, although it was checked against `u`. */
  lemma RepeatedNameRule(scope: Scope, uuidOk: string -> bool, t: Type, v: Const, i: nat, r: Enum, u: Enum)
    requires t.Struct? && !t.xception && Resolve(scope, v, t).Ok? && i < |v.entries|
    requires FieldByName(t.sorted, v.entries[i].key.str).Some?
    requires FieldByName(t.sorted, v.entries[i].key.str).value.ty == Enumeration(r)
    requires MemberType(t.members, v.entries[i].key.str) == Some(Enumeration(u))
    requires Validate(t, Resolve(scope, v, t).value)
    ensures var w := Resolve(scope, v, t).value;
            && i < |w.entries| && w.entries[i].key == v.entries[i].key && ValidEnum(u, w.entries[i].val)
            && forall lang :: Renders(lang, uuidOk, Enumeration(u), w.entries[i].val) <==>
                 exists c :: c in r.constants && c.name == LastName(w.entries[i].val.ident)
  {
    hide Resolve, LastName;
    ResolveAttaches(scope, v, t);
    var x := Resolve(scope, v, t).value.entries[i].val;
    assert Attached(Enumeration(r), v.entries[i].val, x);
    assert Validate(Enumeration(u), x);
    IntegerFinds(x);
  }

  // ----- Each condition is needed -----

  function Ident(s: string): Const { Const(CvIdentifier, 0, 0.0, "", s, None, [], []) }

  const DOTTED_ENUM := Enum("E", [EnumValue("c.D", 1)])

  /** An enumerator with a dot in its name passes validation and then cannot be found. */
  lemma DottedEnumeratorThrows()
    ensures var t, v := Enumeration(DOTTED_ENUM), Ident("x.y.c.D");
            Resolve(map[], v, t).Ok? && Validate(t, Resolve(map[], v, t).value)
            && Integer(Resolve(map[], v, t).value).Throw?
  {
    hide QualifiedName, LastName;
    DottedNames();
    assert DOTTED_ENUM.constants[0].name == "c.D";
  }

  lemma DottedNames()
    ensures QualifiedName("x.y.c.D") == Ok("c.D") && LastName("x.y.c.D") == "D"
  {
    var id := "x.y.c.D";
    assert Find(id, '.') == 1 by { assert Find(id[1..], '.') == 0; }
    assert id[2..] == "y.c.D";
    assert Find("y.c.D", '.') == 1 by { assert Find("y.c.D"[1..], '.') == 0; }
    assert "y.c.D"[2..] == "c.D";
    DotFreeSuffix(id, 6);
    assert id[6..] == "D";
  }

  const PLAIN_ENUM := Enum("E", [EnumValue("A", 1)])

  function KeyConst(name: string): Const { Const(CvString, 0, 0.0, name, "", None, [], []) }

  function MapConst(es: seq<Entry>): Const { Const(CvMap, 0, 0.0, "", "", None, es, []) }

  lemma QualifiedA()
    ensures QualifiedName("E.A") == Ok("A") && LastName("E.A") == "A"
  {
    assert Find("E.A", '.') == 1 by { assert Find("E.A"[1..], '.') == 0; }
    assert "E.A"[2..] == "A" && Find("A", '.') == 1;
    DotFreeSuffix("E.A", 2);
  }

  /** The resolver does not descend into an exception, so an enum inside it stays unset. */
  lemma ExceptionThrows(uuidOk: string -> bool)
    ensures var f := Field("f", Enumeration(PLAIN_ENUM));
            var t, v := Struct(true, [f], [f]), MapConst([Entry(KeyConst("f"), Ident("E.A"))]);
            Resolve(map[], v, t) == Ok(v) && Validate(t, v) && !Renders(Cpp, uuidOk, t, v)
  {
    hide QualifiedName, LastName;
    var f := Field("f", Enumeration(PLAIN_ENUM));
    var v := MapConst([Entry(KeyConst("f"), Ident("E.A"))]);
    assert MemberType([f], "f") == Some(f.ty);
    QualifiedA();
    assert PLAIN_ENUM.constants[0].name == "A";
    assert v.entries[0].val == Ident("E.A") && Integer(Ident("E.A")).Throw?;
  }

  const OTHER_ENUM := Enum("F", [EnumValue("B", 1)])

  /** Two members of one name: the resolver takes the first by key, the validator the last declared. */
  lemma RepeatedNameThrows(uuidOk: string -> bool)
    ensures var fs := [Field("f", Enumeration(OTHER_ENUM)), Field("f", Enumeration(PLAIN_ENUM))];
            var t, v := Struct(false, fs, fs), MapConst([Entry(KeyConst("f"), Ident("E.A"))]);
            Resolve(map[], v, t).Ok? && Validate(t, Resolve(map[], v, t).value)
            && !Renders(Cpp, uuidOk, t, Resolve(map[], v, t).value)
  {
    RepeatedNameResolves();
    RepeatedNameSplits(uuidOk);
  }

  lemma RepeatedNameSplits(uuidOk: string -> bool)
    ensures var fs := [Field("f", Enumeration(OTHER_ENUM)), Field("f", Enumeration(PLAIN_ENUM))];
            var t, w := Struct(false, fs, fs), MapConst([Entry(KeyConst("f"), Ident("E.A").(enum := Some(OTHER_ENUM)))]);
            Validate(t, w) && !Renders(Cpp, uuidOk, t, w)
  {
    hide Resolve, QualifiedName, LastName;
    var fs := [Field("f", Enumeration(OTHER_ENUM)), Field("f", Enumeration(PLAIN_ENUM))];
    var x := Ident("E.A").(enum := Some(OTHER_ENUM));
    var w := MapConst([Entry(KeyConst("f"), x)]);
    assert MemberType(fs, "f") == Some(Enumeration(PLAIN_ENUM));
    QualifiedA();
    assert PLAIN_ENUM.constants[0].name == "A";
    assert Integer(x).Throw? && w.entries[0].val == x;
  }

  lemma RepeatedNameResolves()
    ensures var fs := [Field("f", Enumeration(OTHER_ENUM)), Field("f", Enumeration(PLAIN_ENUM))];
            var t, v := Struct(false, fs, fs), MapConst([Entry(KeyConst("f"), Ident("E.A"))]);
            Resolve(map[], v, t) == Ok(MapConst([Entry(KeyConst("f"), Ident("E.A").(enum := Some(OTHER_ENUM)))]))
  {
    var fs := [Field("f", Enumeration(OTHER_ENUM)), Field("f", Enumeration(PLAIN_ENUM))];
    var t, v := Struct(false, fs, fs), MapConst([Entry(KeyConst("f"), Ident("E.A"))]);
    var e := Entry(KeyConst("f"), Ident("E.A").(enum := Some(OTHER_ENUM)));
    assert FieldByName(fs, "f") == Some(fs[0]);
    assert ResolveEntry(map[], v, t, 0) == Ok(e);
    assert ResolveEntries(map[], v, t, 1) == Ok([]);
    assert ResolveEntries(map[], v, t, 0) == Ok([e] + []) && [e] + [] == [e];
  }

  /** The validator does not look through a typedef, so nothing is checked behind one. */
  lemma TypedefThrows(uuidOk: string -> bool)
    ensures var t, v := Typedef(Struct(false, [], [])), MapConst([Entry(KeyConst("f"), Ident("E.A"))]);
            Resolve(map[], v, t) == Ok(v) && Validate(t, v) && !Renders(Cpp, uuidOk, t, v)
  {
    var v := MapConst([Entry(KeyConst("f"), Ident("E.A"))]);
    assert v.entries[0].key.str == "f" && MemberType([], "f").None?;
    assert !Renders(Cpp, uuidOk, Struct(false, [], []), v);
  }
}
