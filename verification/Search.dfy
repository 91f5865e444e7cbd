/** Searching a text for a character and a list for a name, first match first. */
module Search {
  import opened Wrappers

  /** string::find, with the length for npos. */
  function Find(s: string, c: char): (k: nat)
    ensures k <= |s| && (k < |s| ==> s[k] == c) && c !in s[..k]
  {
    if s == "" || s[0] == c then 0
    else
      var k := Find(s[1..], c);
      assert s[..1 + k] == [s[0]] + s[1..][..k];
      1 + k
  }

  /** The first element of that name. */
  function FirstNamed<T>(nameOf: T -> string, xs: seq<T>, name: string): (r: Option<T>)
    ensures r.Some? ==> r.value in xs && nameOf(r.value) == name
    ensures r.None? ==> forall x | x in xs :: nameOf(x) != name
  {
    if xs == [] then None else if nameOf(xs[0]) == name then Some(xs[0]) else FirstNamed(nameOf, xs[1..], name)
  }

  /** No element before it has the name. */
  lemma {:induction false} FirstIsFirst<T>(nameOf: T -> string, xs: seq<T>, name: string)
    ensures FirstNamed(nameOf, xs, name).Some? ==>
              exists k :: 0 <= k < |xs| && xs[k] == FirstNamed(nameOf, xs, name).value
                          && forall j | 0 <= j < k :: nameOf(xs[j]) != name
  {
    var r := FirstNamed(nameOf, xs, name);
    if r.Some? && nameOf(xs[0]) != name {
      FirstIsFirst(nameOf, xs[1..], name);
      var k :| 0 <= k < |xs[1..]| && xs[1..][k] == r.value && forall j | 0 <= j < k :: nameOf(xs[1..][j]) != name;
      assert xs[k + 1] == r.value && forall j | 0 < j < k + 1 :: xs[j] == xs[1..][j - 1];
    } else if r.Some? {
      assert xs[0] == r.value;
    }
  }

  /** The loop over all elements that stops at the first match. */
  method FindNamed<T>(nameOf: T -> string, xs: seq<T>, name: string) returns (r: Option<T>)
    ensures r == FirstNamed(nameOf, xs, name)
  {
    for i := 0 to |xs|
      invariant FirstNamed(nameOf, xs, name) == FirstNamed(nameOf, xs[i..], name)
    {
      assert xs[i..][0] == xs[i] && xs[i..][1..] == xs[i + 1..];
      if nameOf(xs[i]) == name {
        return Some(xs[i]);
      }
    }
    return None;
  }
}
