/** The chunked `fwrite`/`fread` loop that the write and the read speed tests
    both run. The I/O call is an oracle `io(k, n)` that says what
    the k-th call (counting from 0), asked for `n` bytes, reported. */
module Transfer {
  import opened Bytes

  datatype Mode = WriteMode | ReadMode

  /** What one `fwrite`/`fread` call reports: the count it returned, and
      whether `ferror` is set on the stream afterwards. */
  datatype Reply = Reply(count: nat, error: bool)

  /** Why a session stopped early. */
  datatype Cause = WriteFailed | ReadError | UnexpectedEof

  datatype Status = Completed | Failed(cause: Cause)

  function Sum(s: seq<nat>): nat
  {
    if s == [] then 0 else s[0] + Sum(s[1..])
  }

  lemma {:induction false} SumAppend(s: seq<nat>, x: nat)
    ensures Sum(s + [x]) == Sum(s) + x
  {
    if s != [] {
      assert (s + [x])[1..] == s[1..] + [x];
      SumAppend(s[1..], x);
    }
  }

  /** `n` copies of `x`. */
  function Repeat(x: nat, n: nat): (s: seq<nat>)
    ensures |s| == n
  {
    seq(n, _ => x)
  }

  /** The chunk sizes a session requests when no chunk comes up short, with
      `remaining` bytes still to go: each is `min(remaining, bufferSize)`. */
  function ChunkPlan(remaining: nat, bufferSize: nat): seq<nat>
    requires bufferSize > 0
    decreases remaining
  {
    if remaining == 0 then []
    else
      var chunk := Min(remaining, bufferSize);
      [chunk] + ChunkPlan(remaining - chunk, bufferSize)
  }

  /** The chunks of a plan add up to exactly the bytes it was made for. */
  lemma {:induction false} ChunkPlanSum(remaining: nat, bufferSize: nat)
    requires bufferSize > 0
    ensures Sum(ChunkPlan(remaining, bufferSize)) == remaining
    decreases remaining
  {
    if remaining > 0 {
      var chunk := Min(remaining, bufferSize);
      var plan := ChunkPlan(remaining, bufferSize);
      assert plan[1..] == ChunkPlan(remaining - chunk, bufferSize);
      ChunkPlanSum(remaining - chunk, bufferSize);
    }
  }

  /** Every planned chunk is non-empty and at most one buffer, and every chunk
      but the last is exactly one buffer. */
  lemma {:induction false} ChunkPlanBounds(remaining: nat, bufferSize: nat)
    requires bufferSize > 0
    ensures forall k :: 0 <= k < |ChunkPlan(remaining, bufferSize)| ==>
              0 < ChunkPlan(remaining, bufferSize)[k] <= bufferSize
    ensures forall k :: 0 <= k < |ChunkPlan(remaining, bufferSize)| - 1 ==>
              ChunkPlan(remaining, bufferSize)[k] == bufferSize
    decreases remaining
  {
    if remaining > 0 {
      var chunk := Min(remaining, bufferSize);
      var plan := ChunkPlan(remaining, bufferSize);
      var rest := ChunkPlan(remaining - chunk, bufferSize);
      assert plan == [chunk] + rest;
      ChunkPlanBounds(remaining - chunk, bufferSize);
      assert chunk < bufferSize ==> rest == [];
      assert forall k :: 1 <= k < |plan| ==> plan[k] == rest[k - 1];
    }
  }

  lemma {:induction false} SumRepeat(x: nat, n: nat)
    ensures Sum(Repeat(x, n)) == n * x
  {
    if n > 0 {
      assert Repeat(x, n)[1..] == Repeat(x, n - 1);
      SumRepeat(x, n - 1);
      MulPred(n, x);
    }
  }

  /** After `n` full chunks, a remainder `r < bufferSize` is sent as one short
      chunk of exactly `r` bytes, not padded, and nothing follows it. */
  lemma {:induction false} ChunkPlanSplit(n: nat, bufferSize: nat, r: nat, x: nat)
    requires 0 <= r < bufferSize
    requires x == n * bufferSize + r
    ensures ChunkPlan(x, bufferSize) == Repeat(bufferSize, n) + (if r == 0 then [] else [r])
  {
    if n == 0 {
      if r > 0 {
        assert ChunkPlan(r, bufferSize) == [r] + ChunkPlan(0, bufferSize);
      }
    } else {
      MulPred(n, bufferSize);
      ChunkPlanSplit(n - 1, bufferSize, r, x - bufferSize);
      assert ChunkPlan(x, bufferSize) == [bufferSize] + ChunkPlan(x - bufferSize, bufferSize);
      assert [bufferSize] + Repeat(bufferSize, n - 1) == Repeat(bufferSize, n);
    }
  }

  lemma MulPred(n: nat, b: nat)
    requires n > 0
    ensures n * b == (n - 1) * b + b
  {
  }

  /** The whole plan: `fileSize / bufferSize` full chunks, then the remainder
      `fileSize % bufferSize` as one final chunk when it is not zero. */
  lemma ChunkPlanShape(fileSize: nat, bufferSize: nat)
    requires bufferSize > 0
    ensures ChunkPlan(fileSize, bufferSize)
         == Repeat(bufferSize, fileSize / bufferSize)
            + (if fileSize % bufferSize == 0 then [] else [fileSize % bufferSize])
    ensures |ChunkPlan(fileSize, bufferSize)|
         == fileSize / bufferSize + (if fileSize % bufferSize == 0 then 0 else 1)
  {
    ChunkPlanSplit(fileSize / bufferSize, bufferSize, fileSize % bufferSize, fileSize);
  }

  /** With a file size that is a multiple of the buffer size, every chunk is a
      whole buffer. */
  lemma ChunkPlanMultiple(n: nat, bufferSize: nat)
    requires bufferSize > 0
    ensures ChunkPlan(n * bufferSize, bufferSize) == Repeat(bufferSize, n)
  {
    ChunkPlanSplit(n, bufferSize, 0, n * bufferSize);
  }

  /** The benchmark's own sizes (128 KiB buffer, 4 MiB file): 32 chunks of
      131072 bytes. */
  lemma BenchmarkPlan()
    ensures ChunkPlan(4 * 1024 * 1024, 128 * 1024) == Repeat(131072, 32)
  {
    ChunkPlanMultiple(32, 131072);
  }

  /** One byte more than the benchmark's file size: 32 full chunks and a final
      1-byte chunk. */
  lemma BenchmarkPlanPlusOne()
    ensures ChunkPlan(4 * 1024 * 1024 + 1, 128 * 1024) == Repeat(131072, 32) + [1]
  {
    ChunkPlanSplit(32, 131072, 1, 4 * 1024 * 1024 + 1);
  }

  /** How a short transfer is reported: any short write is one kind of
      failure; a short read is an error when `ferror` is set and an unexpected
      end of file otherwise. */
  function Classify(mode: Mode, error: bool): (c: Cause)
    ensures mode == WriteMode <==> c == WriteFailed
    ensures mode == ReadMode ==> (c == ReadError <==> error)
  {
    match mode
    case WriteMode => WriteFailed
    case ReadMode => if error then ReadError else UnexpectedEof
  }

  /** What a finished session looks like: the counter never passes
      `fileSize`; the requests are the start of the chunk plan; every request
      but the last got a full count; the session completed exactly when the
      counter reached `fileSize`, and then every chunk of the plan was requested
      and moved; otherwise the last request came up short, its outcome is
      classified, and its count was not added, so the counter is the sum of the
      earlier chunks. */
  ghost predicate Session(mode: Mode, fileSize: nat, bufferSize: nat, io: (nat, nat) -> Reply,
                          transferred: nat, requests: seq<nat>, status: Status)
    requires bufferSize > 0
  {
    && transferred <= fileSize
    && requests <= ChunkPlan(fileSize, bufferSize)
    && (forall k :: 0 <= k < |requests| - 1 ==> io(k, requests[k]).count == requests[k])
    && (status == Completed <==> transferred == fileSize)
    && (status == Completed ==>
          && requests == ChunkPlan(fileSize, bufferSize)
          && (forall k :: 0 <= k < |requests| ==> io(k, requests[k]).count == requests[k]))
    && (status.Failed? ==>
          && |requests| > 0
          && io(|requests| - 1, requests[|requests| - 1]).count != requests[|requests| - 1]
          && status.cause == Classify(mode, io(|requests| - 1, requests[|requests| - 1]).error)
          && transferred == Sum(requests[..|requests| - 1]))
  }

  /** The state the transfer loop keeps while it runs: the counter is the sum
      of the requests so far, all of which came back full, and what is left of
      the plan is the plan for the bytes still to go. */
  ghost predicate Progress(fileSize: nat, bufferSize: nat, io: (nat, nat) -> Reply,
                           transferred: nat, requests: seq<nat>)
    requires bufferSize > 0
  {
    && transferred <= fileSize
    && transferred == Sum(requests)
    && ChunkPlan(fileSize, bufferSize) == requests + ChunkPlan(fileSize - transferred, bufferSize)
    && (forall k :: 0 <= k < |requests| ==> io(k, requests[k]).count == requests[k])
  }

  /** The transfer loop: request `min(fileSize - transferred, bufferSize)`
      bytes, stop at the first call whose count differs from the request
      without adding that count, otherwise add it and go on until `fileSize`
      bytes are done. `requests` lists the sizes passed to the I/O calls, in
      order; the lemmas after this method say what that list looks like. */
  method Drive(mode: Mode, fileSize: nat, bufferSize: nat, io: (nat, nat) -> Reply)
    returns (transferred: nat, requests: seq<nat>, status: Status)
    requires bufferSize > 0
    ensures Session(mode, fileSize, bufferSize, io, transferred, requests, status)
  {
    transferred, requests, status := 0, [], Completed;
    while transferred < fileSize
      invariant Progress(fileSize, bufferSize, io, transferred, requests)
      decreases fileSize - transferred
    {
      var chunk := fileSize - transferred;
      if chunk > bufferSize {
        chunk := bufferSize;
      }
      var reply := io(|requests|, chunk);
      if reply.count != chunk {
        StopShort(mode, fileSize, bufferSize, io, transferred, requests);
        requests := requests + [chunk];
        status := Failed(Classify(mode, reply.error));
        break;
      }
      Advance(fileSize, bufferSize, io, transferred, requests);
      requests := requests + [chunk];
      transferred := transferred + reply.count;
    }
    if status == Completed {
      Finish(mode, fileSize, bufferSize, io, transferred, requests);
    }
  }

  /** A full reply to the next planned chunk keeps the loop's state. */
  lemma Advance(fileSize: nat, bufferSize: nat, io: (nat, nat) -> Reply,
                transferred: nat, requests: seq<nat>)
    requires bufferSize > 0 && transferred < fileSize
    requires Progress(fileSize, bufferSize, io, transferred, requests)
    requires var chunk := Min(fileSize - transferred, bufferSize);
             io(|requests|, chunk).count == chunk
    ensures var chunk := Min(fileSize - transferred, bufferSize);
            Progress(fileSize, bufferSize, io, transferred + chunk, requests + [chunk])
  {
    var chunk := Min(fileSize - transferred, bufferSize);
    PlanStep(fileSize, bufferSize, transferred, requests);
    SumAppend(requests, chunk);
  }

  /** A reply that differs from the next planned chunk ends the session as
      a failure, with the counter left as it was. */
  lemma StopShort(mode: Mode, fileSize: nat, bufferSize: nat, io: (nat, nat) -> Reply,
                  transferred: nat, requests: seq<nat>)
    requires bufferSize > 0 && transferred < fileSize
    requires Progress(fileSize, bufferSize, io, transferred, requests)
    requires var chunk := Min(fileSize - transferred, bufferSize);
             io(|requests|, chunk).count != chunk
    ensures var chunk := Min(fileSize - transferred, bufferSize);
            Session(mode, fileSize, bufferSize, io, transferred, requests + [chunk],
                    Failed(Classify(mode, io(|requests|, chunk).error)))
  {
    PlanStep(fileSize, bufferSize, transferred, requests);
  }

  /** When the counter reaches the file size, the whole plan was requested. */
  lemma Finish(mode: Mode, fileSize: nat, bufferSize: nat, io: (nat, nat) -> Reply,
               transferred: nat, requests: seq<nat>)
    requires bufferSize > 0 && transferred >= fileSize
    requires Progress(fileSize, bufferSize, io, transferred, requests)
    ensures Session(mode, fileSize, bufferSize, io, transferred, requests, Completed)
  {
    assert requests + [] == requests;
  }

  /** One turn of the loop: requesting the next planned chunk keeps the
      requests a prefix of the plan. */
  lemma PlanStep(fileSize: nat, bufferSize: nat, transferred: nat, requests: seq<nat>)
    requires bufferSize > 0 && transferred < fileSize
    requires ChunkPlan(fileSize, bufferSize) == requests + ChunkPlan(fileSize - transferred, bufferSize)
    ensures var chunk := Min(fileSize - transferred, bufferSize);
            && ChunkPlan(fileSize, bufferSize)
               == (requests + [chunk]) + ChunkPlan(fileSize - transferred - chunk, bufferSize)
            && (requests + [chunk])[..|requests|] == requests
  {
    var chunk := Min(fileSize - transferred, bufferSize);
    assert ChunkPlan(fileSize - transferred, bufferSize)
        == [chunk] + ChunkPlan(fileSize - transferred - chunk, bufferSize);
    assert requests + ([chunk] + ChunkPlan(fileSize - transferred - chunk, bufferSize))
        == (requests + [chunk]) + ChunkPlan(fileSize - transferred - chunk, bufferSize);
  }

  /** Every chunk a session requests is non-empty and at most one buffer, and
      every chunk but the last one requested is exactly one buffer. */
  lemma RequestBounds(fileSize: nat, bufferSize: nat, requests: seq<nat>)
    requires bufferSize > 0
    requires requests <= ChunkPlan(fileSize, bufferSize)
    ensures forall k :: 0 <= k < |requests| ==> 0 < requests[k] <= bufferSize
    ensures forall k :: 0 <= k < |requests| - 1 ==> requests[k] == bufferSize
  {
    var plan := ChunkPlan(fileSize, bufferSize);
    ChunkPlanBounds(fileSize, bufferSize);
    assert forall k :: 0 <= k < |requests| ==> requests[k] == plan[k];
  }

  /** A session that stops at its n-th request has moved n - 1 whole buffers:
      the counter is the sum of the earlier full chunks. */
  lemma FailedAfterFullChunks(fileSize: nat, bufferSize: nat, requests: seq<nat>)
    requires bufferSize > 0
    requires 0 < |requests|
    requires requests <= ChunkPlan(fileSize, bufferSize)
    ensures Sum(requests[..|requests| - 1]) == (|requests| - 1) * bufferSize
  {
    RequestBounds(fileSize, bufferSize, requests);
    var full := requests[..|requests| - 1];
    assert full == Repeat(bufferSize, |full|);
    SumRepeat(bufferSize, |full|);
  }

  /** Each planned chunk is `min(fileSize - bytes done so far, bufferSize)`,
      where the bytes done so far are the sum of the chunks before it. */
  lemma {:induction false} ChunkPlanRequests(fileSize: nat, bufferSize: nat, k: nat)
    requires bufferSize > 0
    requires k < |ChunkPlan(fileSize, bufferSize)|
    ensures ChunkPlan(fileSize, bufferSize)[k]
         == Min(fileSize - Sum(ChunkPlan(fileSize, bufferSize)[..k]), bufferSize)
    decreases fileSize
  {
    var plan := ChunkPlan(fileSize, bufferSize);
    var chunk := Min(fileSize, bufferSize);
    var rest := ChunkPlan(fileSize - chunk, bufferSize);
    assert plan == [chunk] + rest;
    if k > 0 {
      ChunkPlanRequests(fileSize - chunk, bufferSize, k - 1);
      assert plan[..k] == [chunk] + rest[..k - 1];
      assert plan[..k][1..] == rest[..k - 1];
    }
  }
}
