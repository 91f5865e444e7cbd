/** memcpy, on arrays of any element type. */
module Memory {

  /** `s` written into `buf` at position `pos`. */
  function Splice<T>(buf: seq<T>, pos: nat, s: seq<T>): (r: seq<T>)
    requires pos + |s| <= |buf|
    ensures |r| == |buf|
  {
    buf[..pos] + s + buf[pos + |s|..]
  }

  method Memcpy<T>(buf: array<T>, pos: nat, s: seq<T>)
    requires pos + |s| <= buf.Length
    modifies buf
    ensures buf[..] == Splice(old(buf[..]), pos, s)
  {
    for j := 0 to |s|
      invariant buf[..pos] == old(buf[..pos]) && buf[pos..pos + j] == s[..j]
      invariant buf[pos + j..] == old(buf[pos + j..])
    {
      buf[pos + j] := s[j];
    }
  }
}
