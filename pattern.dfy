/** The buffer fill loop of `test_write_speed`: byte `i` of the transfer
    buffer holds `i & 0xFF`, that is `i mod 256`. */
module Pattern {
  import opened Bytes

  /** The content of a filled buffer of `n` bytes. */
  function Block(n: nat): (s: seq<byte>)
    ensures |s| == n
  {
    seq(n, i => i % 256)
  }

  /** The fill loop of the write test. For a non-negative `int i`, both the
      mask `i & 0xFF` and the store into a `uint8_t` keep the low eight bits,
      which is `i % 256`. */
  method Fill(buffer: array<byte>)
    modifies buffer
    ensures forall i :: 0 <= i < buffer.Length ==> buffer[i] == i % 256
    ensures buffer[..] == Block(buffer.Length)
  {
    var i := 0;
    while i < buffer.Length
      invariant 0 <= i <= buffer.Length
      invariant forall j :: 0 <= j < i ==> buffer[j] == j % 256
    {
      buffer[i] := i % 256;
      i := i + 1;
    }
  }
}
