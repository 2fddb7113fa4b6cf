/** Line-oriented read-back of the smoke test: `fgets` into a fixed `char`
    array, then `strchr` for the newline and overwrite it with NUL. */
module LineIO {
  import opened Bytes

  /** The bytes `fgets(line, n, f)` takes from a stream that holds `s`: it
      stops after `n - 1` bytes, after the first newline (which it keeps), or at
      the end of the stream, whichever comes first. */
  function FGetsRead(s: seq<byte>, n: nat): (r: seq<byte>)
    requires n >= 1
    ensures r <= s
    ensures |r| <= n - 1
    ensures forall j :: 0 <= j < |r| - 1 ==> r[j] != NEWLINE
    ensures |r| == |s| || |r| == n - 1 || (0 < |r| && r[|r| - 1] == NEWLINE)
  {
    s[..Min(Min(Find(s, NEWLINE) + 1, |s|), n - 1)]
  }

  /** `fgets(line, line.Length, f)` on a stream that holds `stream`. It
      reports whether it read anything: when the stream is already at its end
      (or the array has no room for a byte and a NUL) the array is left as it
      was; otherwise the bytes read are stored, followed by a NUL, and the rest
      of the array is untouched. */
  method FGets(stream: seq<byte>, line: array<byte>) returns (got: bool)
    modifies line
    ensures got <==> |stream| > 0 && line.Length >= 2
    ensures !got ==> line[..] == old(line[..])
    ensures got ==>
              var r := FGetsRead(stream, line.Length);
              && |r| < line.Length
              && line[..|r|] == r
              && line[|r|] == NUL
              && line[|r| + 1..] == old(line[|r| + 1..])
  {
    if line.Length < 2 {
      return false;
    }
    var i := 0;
    while i < line.Length - 1 && i < |stream|
      invariant 0 <= i <= line.Length - 1 && i <= |stream|
      invariant line[..i] == stream[..i]
      invariant forall j :: 0 <= j < i ==> stream[j] != NEWLINE
      invariant line[i..] == old(line[i..])
    {
      line[i] := stream[i];
      i := i + 1;
      if stream[i - 1] == NEWLINE {
        break;
      }
    }
    if i == 0 {
      return false;
    }
    assert i == |FGetsRead(stream, line.Length)|;
    line[i] := NUL;
    got := true;
  }

  /** The C string held in `cells`, cut at its first newline. */
  function CutAtNewline(s: seq<byte>): (r: seq<byte>)
    ensures r <= s
    ensures NEWLINE !in r
    ensures |r| < |s| ==> s[|r|] == NEWLINE
  {
    s[..Find(s, NEWLINE)]
  }

  /** `pos = strchr(line, '\n'); if (pos) *pos = '\0';` on a NUL-terminated
      array: overwrites the first newline of the C string, if any, and nothing
      else, so that the string now ends just before it. */
  method StripNewline(line: array<byte>)
    requires NUL in line[..]
    modifies line
    ensures var s := CString(old(line[..]));
            line[..] == if Find(s, NEWLINE) < |s| then old(line[..])[Find(s, NEWLINE) := NUL]
                        else old(line[..])
    ensures CString(line[..]) == CutAtNewline(CString(old(line[..])))
  {
    ghost var cells := line[..];
    ghost var s := CString(cells);
    var i := 0;
    while line[i] != NUL && line[i] != NEWLINE
      invariant 0 <= i <= |s| < line.Length
      invariant forall j :: 0 <= j < i ==> line[j] != NUL && line[j] != NEWLINE
      decreases |s| - i
    {
      i := i + 1;
    }
    assert Find(s, NEWLINE) == i || (i == |s| && NEWLINE !in s);
    if line[i] == NEWLINE {
      line[i] := NUL;
      assert line[..] == cells[i := NUL];
      assert CString(line[..]) == s[..i];
    }
  }
}
