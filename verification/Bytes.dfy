/** Bytes in memory, and the strings that C finds in them. */
module Bytes {

  type Byte = x: int | 0 <= x < 256

  function Zeros(n: nat): (z: seq<Byte>)
    ensures |z| == n && forall j | 0 <= j < n :: z[j] == 0
  {
    seq(n, _ => 0)
  }

  /** The C string that begins at n. */
  function CString(buf: seq<Byte>, n: nat): (s: seq<Byte>)
    requires n <= |buf|
    decreases |buf| - n
  {
    if n == |buf| || buf[n] == 0 then [] else [buf[n]] + CString(buf, n + 1)
  }

  lemma {:induction false} CStringIs(buf: seq<Byte>, n: nat, s: seq<Byte>)
    requires 0 !in s && n + |s| < |buf| && buf[n..n + |s|] == s && buf[n + |s|] == 0
    ensures CString(buf, n) == s
    decreases |s|
  {
    if s != [] {
      assert buf[n..n + |s|][0] == buf[n] == s[0];
      assert buf[n + 1..n + |s|] == buf[n..n + |s|][1..];
      CStringIs(buf, n + 1, s[1..]);
      assert s == [s[0]] + s[1..];
    }
  }
}
