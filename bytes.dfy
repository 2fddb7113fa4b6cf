/** Bytes and C strings as the benchmark sees them: a `char` or `uint8_t` is a
    number below 256, and a C string stored in a `char` array ends at its first
    NUL byte. */
module Bytes {

  /** One `uint8_t` / `char` cell. */
  type byte = b: int | 0 <= b < 256

  /** '\0' */
  const NUL: byte := 0
  /** '\n' */
  const NEWLINE: byte := 10

  function Min(a: int, b: int): (m: int)
    ensures m <= a && m <= b
    ensures m == a || m == b
  {
    if a <= b then a else b
  }

  /** Index of the first `b` in `s`, or `|s|` when `s` holds none: the scan
      that `strchr` and `strlen` perform. */
  function Find(s: seq<byte>, b: byte): (i: nat)
    ensures i <= |s|
    ensures i < |s| ==> s[i] == b
    ensures forall j :: 0 <= j < i ==> s[j] != b
  {
    if s == [] then 0
    else if s[0] == b then 0
    else 1 + Find(s[1..], b)
  }

  /** The C string held by a `char` array: everything before the first NUL. */
  function CString(cells: seq<byte>): (s: seq<byte>)
    ensures NUL !in s
    ensures s <= cells
    ensures |s| < |cells| ==> cells[|s|] == NUL
  {
    cells[..Find(cells, NUL)]
  }

  /** Where the first `b` of a concatenation is. */
  lemma {:induction false} FindConcat(p: seq<byte>, q: seq<byte>, b: byte)
    ensures Find(p + q, b) == if Find(p, b) < |p| then Find(p, b) else |p| + Find(q, b)
  {
    if p == [] {
      assert p + q == q;
    } else {
      assert (p + q)[0] == p[0];
      assert (p + q)[1..] == p[1..] + q;
      FindConcat(p[1..], q, b);
    }
  }

  /** Cutting a sequence short moves its first `b` to the cut, at most. */
  lemma {:induction false} FindPrefix(s: seq<byte>, n: nat, b: byte)
    requires n <= |s|
    ensures Find(s[..n], b) == Min(Find(s, b), n)
  {
    if n > 0 && s[0] != b {
      assert s[..n][1..] == s[1..][..n - 1];
      FindPrefix(s[1..], n - 1, b);
    }
  }
}
