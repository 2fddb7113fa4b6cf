/** `test_write_speed` and `test_read_speed`: buffer, file handling and timing
    around one transfer session each. */
module SpeedTest {
  import opened Bytes
  import Pattern
  import opened Transfer
  import opened FileSystem

  /** The sizes and test path that the benchmark fixes at build time. */
  datatype Config = Config(bufferSize: nat, fileSize: nat, path: Path)

  /** What the environment answers during one speed test: whether the buffer
      allocation succeeds, whether `fopen` succeeds (write test only: the read
      test's `fopen` fails exactly when the file is missing), the I/O oracle,
      and the two readings of the microsecond clock. */
  datatype Env = Env(allocOk: bool, openOk: bool, io: (nat, nat) -> Reply, startUs: int, endUs: int)

  /** How one speed test ends. `reportedBytes` is the byte count printed in
      the speed line. */
  datatype Report =
    | NoBuffer
    | OpenFailed
    | Measured(status: Status, transferred: nat, requests: seq<nat>,
               reportedBytes: nat, elapsedUs: int)

  /** The bytes a series of `fwrite` calls appends to the file: call k hands
      over the first `requests[k]` bytes of `buffer` and writes as many of them
      as it reports (`fwrite` never reports more than it was asked). */
  function Written(buffer: seq<byte>, requests: seq<nat>, io: (nat, nat) -> Reply): seq<byte>
    decreases |requests|
  {
    if requests == [] then []
    else
      var k := |requests| - 1;
      Written(buffer, requests[..k], io)
        + buffer[..Min(Min(io(k, requests[k]).count, requests[k]), |buffer|)]
  }

  /** The test file that a run without short writes should leave: byte `j` is
      `j mod 256` within its buffer, so the pattern restarts every buffer. */
  function Image(size: nat, bufferSize: nat): (s: seq<byte>)
    requires bufferSize > 0
    ensures |s| == size
  {
    seq(size, j => (j % bufferSize) % 256)
  }

  lemma {:induction false} MulAtLeast(b: nat, d: nat)
    requires d >= 1
    ensures b * d >= b
  {
    if d > 1 {
      MulAtLeast(b, d - 1);
      assert b * d == b * (d - 1) + b;
    }
  }

  lemma ModOffset(k: nat, b: nat, j: nat)
    requires j < b
    ensures (k * b + j) % b == j
  {
    var x := k * b + j;
    var q := x / b;
    assert b * q + x % b == b * k + j;
    if q > k {
      MulAtLeast(b, q - k);
    } else if q < k {
      MulAtLeast(b, k - q);
    }
  }

  /** A further buffer's worth (or less) of the pattern, appended after `n`
      whole buffers, continues the image. */
  lemma ImageExtend(n: nat, bufferSize: nat, c: nat)
    requires 0 < c <= bufferSize
    ensures Image(n * bufferSize, bufferSize) + Pattern.Block(bufferSize)[..c]
         == Image(n * bufferSize + c, bufferSize)
  {
    var start := n * bufferSize;
    var left := Image(start, bufferSize) + Pattern.Block(bufferSize)[..c];
    var right := Image(start + c, bufferSize);
    forall i | start <= i < start + c
      ensures left[i] == right[i]
    {
      ModOffset(n, bufferSize, i - start);
    }
  }

  /** As long as every write so far was accepted in full, the file holds the
      start of the image: one filled buffer after another, the last one cut to
      size. */
  lemma {:induction false} WrittenImage(fileSize: nat, bufferSize: nat,
                                        io: (nat, nat) -> Reply, requests: seq<nat>)
    requires bufferSize > 0
    requires requests <= ChunkPlan(fileSize, bufferSize)
    requires forall k :: 0 <= k < |requests| ==> io(k, requests[k]).count == requests[k]
    ensures Written(Pattern.Block(bufferSize), requests, io) == Image(Sum(requests), bufferSize)
  {
    if requests != [] {
      var n := |requests| - 1;
      var front := requests[..n];
      var c := requests[n];
      assert front <= ChunkPlan(fileSize, bufferSize);
      WrittenImage(fileSize, bufferSize, io, front);
      FailedAfterFullChunks(fileSize, bufferSize, requests);
      RequestBounds(fileSize, bufferSize, requests);
      assert requests == front + [c];
      SumAppend(front, c);
      ImageExtend(n, bufferSize, c);
    }
  }

  /** After a completed write session the test file is exactly `fileSize`
      bytes of the repeated fill pattern. */
  lemma CompletedWriteImage(fileSize: nat, bufferSize: nat, io: (nat, nat) -> Reply,
                            transferred: nat, requests: seq<nat>)
    requires bufferSize > 0
    requires Session(WriteMode, fileSize, bufferSize, io, transferred, requests, Completed)
    ensures Written(Pattern.Block(bufferSize), requests, io) == Image(fileSize, bufferSize)
  {
    WrittenImage(fileSize, bufferSize, io, requests);
    ChunkPlanSum(fileSize, bufferSize);
  }

  /** `test_write_speed`: ensure the test file is absent, allocate and fill
      the buffer, create the file, run the write session, then flush, sync and
      close before the second clock reading. */
  method WriteSpeedTest(vol: Volume, cfg: Config, env: Env) returns (report: Report)
    requires cfg.bufferSize > 0
    modifies vol
    ensures !env.allocOk ==> report == NoBuffer && vol.files == Removed(old(vol.files), cfg.path)
    ensures env.allocOk && !env.openOk ==>
              report == OpenFailed && vol.files == Removed(old(vol.files), cfg.path)
    ensures env.allocOk && env.openOk ==>
              && report.Measured?
              && Session(WriteMode, cfg.fileSize, cfg.bufferSize, env.io,
                         report.transferred, report.requests, report.status)
              && report.reportedBytes == cfg.fileSize
              && report.elapsedUs == env.endUs - env.startUs
              && vol.files == old(vol.files)[cfg.path :=
                   Written(Pattern.Block(cfg.bufferSize), report.requests, env.io)]
  {
    vol.EnsureAbsent(cfg.path);
    if !env.allocOk {
      return NoBuffer;
    }
    var buffer := new byte[cfg.bufferSize];
    Pattern.Fill(buffer);
    if !env.openOk {
      return OpenFailed;
    }
    vol.Create(cfg.path);
    var transferred, requests, status := Drive(WriteMode, cfg.fileSize, cfg.bufferSize, env.io);
    var data := Written(buffer[..], requests, env.io);
    vol.Append(cfg.path, data);
    assert [] + data == data;
    assert vol.files == Removed(old(vol.files), cfg.path)[cfg.path := data];
    report := Measured(status, transferred, requests, cfg.fileSize, env.endUs - env.startUs);
  }

  /** `test_read_speed`: allocate the DMA-capable buffer, open the test file,
      run the read session, close, report, and delete the file. An early return
      leaves the file in place. */
  method ReadSpeedTest(vol: Volume, cfg: Config, env: Env) returns (report: Report)
    requires cfg.bufferSize > 0
    modifies vol
    ensures !env.allocOk ==> report == NoBuffer && vol.files == old(vol.files)
    ensures env.allocOk && cfg.path !in old(vol.files) ==>
              report == OpenFailed && vol.files == old(vol.files)
    ensures env.allocOk && cfg.path in old(vol.files) ==>
              && report.Measured?
              && Session(ReadMode, cfg.fileSize, cfg.bufferSize, env.io,
                         report.transferred, report.requests, report.status)
              && report.reportedBytes == cfg.fileSize
              && report.elapsedUs == env.endUs - env.startUs
              && vol.files == Removed(old(vol.files), cfg.path)
  {
    if !env.allocOk {
      return NoBuffer;
    }
    var present := vol.Stat(cfg.path);
    if !present {
      return OpenFailed;
    }
    var transferred, requests, status := Drive(ReadMode, cfg.fileSize, cfg.bufferSize, env.io);
    report := Measured(status, transferred, requests, cfg.fileSize, env.endUs - env.startUs);
    var _ := vol.Unlink(cfg.path);
  }
}
