/** Types every part of the model uses. */
module Basics {

  type byte = x: int | 0 <= x < 256

  datatype Option<T> = None | Some(value: T)

  /** memcpy/memmove of the bytes `s` over `a[pos..]`. */
  function Overwrite(a: seq<byte>, pos: nat, s: seq<byte>): (r: seq<byte>)
    requires pos + |s| <= |a|
    ensures |r| == |a| && r[pos..pos + |s|] == s
    ensures r[..pos] == a[..pos] && r[pos + |s|..] == a[pos + |s|..]
  {
    a[..pos] + s + a[pos + |s|..]
  }

  /** memcpy of `s` to `buf + pos`. */
  method Copy(buf: array<byte>, pos: nat, s: seq<byte>)
    requires pos + |s| <= buf.Length
    modifies buf
    ensures buf[..] == Overwrite(old(buf[..]), pos, s)
  {
    ghost var was := buf[..];
    var k := 0;
    while k < |s|
      invariant 0 <= k <= |s| && buf[..] == Overwrite(was, pos, s[..k])
    {
      buf[pos + k] := s[k];
      assert s[..k + 1] == s[..k] + [s[k]];
      k := k + 1;
    }
    assert s[..k] == s;
  }
}
