/** `app_main` after the card is mounted: the smoke test (create, write one
    line, rename, read the line back) and then the two speed tests. */
module App {
  import opened Bytes
  import opened FileSystem
  import opened LineIO
  import opened Transfer
  import opened SpeedTest
  import Pattern

  /** The files under the mount point "/sdcard". */
  const HELLO_PATH: Path := "/sdcard/hello.txt"
  const FOO_PATH: Path := "/sdcard/foo.txt"
  const TEST_FILE_PATH: Path := "/sdcard/test.txt"

  /** 128 KiB per `fwrite`/`fread` call. */
  const TEST_BUFFER_SIZE: nat := 128 * 1024
  /** 4 MiB per session. */
  const TEST_FILE_SIZE: nat := 4 * 1024 * 1024

  const BENCHMARK: Config := Config(TEST_BUFFER_SIZE, TEST_FILE_SIZE, TEST_FILE_PATH)

  /** `char line[64]`. */
  const LINE_SIZE: nat := 64

  /** "Hello " */
  const HELLO: seq<byte> := [72, 101, 108, 108, 111, 32]
  /** '!' */
  const BANG: byte := 33

  /** The line the smoke test means to show: "Hello " + name + "!". */
  function Salutation(name: seq<byte>): seq<byte>
  {
    HELLO + name + [BANG]
  }

  /** What `fprintf(f, "Hello %s!\n", name)` writes. */
  function Greeting(name: seq<byte>): seq<byte>
  {
    Salutation(name) + [NEWLINE]
  }

  /** The C string left in `line` after `fgets(line, 64, f)` and the newline
      strip, for a file holding `content` (when `fgets` reads anything). */
  function ReadBack(content: seq<byte>): seq<byte>
  {
    CutAtNewline(CString(FGetsRead(content, LINE_SIZE)))
  }

  /** A greeting holds a NUL only where the name does. */
  lemma GreetingNoNul(name: seq<byte>)
    requires NUL !in name
    ensures NUL !in Greeting(name)
  {
    assert NUL !in HELLO;
  }

  /** Reading back a greeting gives the salutation up to its first newline,
      and at most 63 bytes of it. */
  lemma GreetingReadBack(name: seq<byte>)
    requires NUL !in name
    ensures ReadBack(Greeting(name))
         == Salutation(name)[..Min(Find(Salutation(name), NEWLINE), LINE_SIZE - 1)]
  {
    var p := Salutation(name);
    var g := Greeting(name);
    GreetingNoNul(name);
    var m := Find(p, NEWLINE);
    FindConcat(p, [NEWLINE], NEWLINE);
    assert Find(g, NEWLINE) == m;
    var len := Min(m + 1, LINE_SIZE - 1);
    var r := FGetsRead(g, LINE_SIZE);
    assert r == g[..len];
    assert CString(r) == r by {
      assert NUL !in r;
    }
    FindPrefix(g, len, NEWLINE);
    assert CutAtNewline(r) == g[..Min(m, LINE_SIZE - 1)];
    assert g[..Min(m, LINE_SIZE - 1)] == p[..Min(m, LINE_SIZE - 1)];
  }

  /** The round trip: a name with no newline whose salutation fits in 63
      bytes comes back exactly. */
  lemma GreetingRoundTrip(name: seq<byte>)
    requires NUL !in name && NEWLINE !in name
    requires |Salutation(name)| < LINE_SIZE
    ensures ReadBack(Greeting(name)) == Salutation(name)
  {
    GreetingReadBack(name);
    assert NEWLINE !in Salutation(name);
  }

  /** A longer salutation without newline is cut to its first 63 bytes. */
  lemma GreetingTruncated(name: seq<byte>)
    requires NUL !in name && NEWLINE !in name
    requires |Salutation(name)| >= LINE_SIZE
    ensures ReadBack(Greeting(name)) == Salutation(name)[..LINE_SIZE - 1]
  {
    GreetingReadBack(name);
    assert NEWLINE !in Salutation(name);
  }

  /** Lines 386-396: `fgets` into a fresh 64-byte array, then the newline
      strip; the result is the C string left in the array. */
  method ReadLine(content: seq<byte>) returns (s: seq<byte>)
    requires NUL !in content && content != []
    ensures s == ReadBack(content)
  {
    var line := new byte[LINE_SIZE];
    var _ := FGets(content, line);
    ghost var r := FGetsRead(content, LINE_SIZE);
    assert line[..][..|r|] == r && line[..][|r|] == NUL;
    assert CString(line[..]) == r;
    StripNewline(line);
    s := CString(line[..]);
  }

  /** `fopen(path, "w")` that succeeds, one write of `data`, `fclose`. */
  method WriteFile(vol: Volume, path: Path, data: seq<byte>)
    modifies vol
    ensures vol.files == old(vol.files)[path := data]
  {
    vol.Create(path);
    vol.Append(path, data);
    assert [] + data == data;
  }

  datatype SmokeResult =
    | CreateFailed
    | RenameFailed
    | ReadOpenFailed
    | LineRead(line: seq<byte>)

  /** The smoke test. `name` is the card's product name as a C string;
      `createOk` says whether `fopen(hello.txt, "w")` succeeds. */
  method SmokeTest(vol: Volume, name: seq<byte>, createOk: bool) returns (r: SmokeResult)
    requires NUL !in name
    modifies vol
    ensures !createOk ==> r == CreateFailed && vol.files == old(vol.files)
    ensures createOk ==>
              && r == LineRead(ReadBack(Greeting(name)))
              && HELLO_PATH !in vol.files
              && vol.files == Removed(old(vol.files), HELLO_PATH)[FOO_PATH := Greeting(name)]
  {
    if !createOk {
      return CreateFailed;
    }
    assert HELLO_PATH[8] != FOO_PATH[8];
    var greeting := Greeting(name);
    WriteFile(vol, HELLO_PATH, greeting);
    ghost var written := vol.files;
    vol.EnsureAbsent(FOO_PATH);
    var renamed := vol.Rename(HELLO_PATH, FOO_PATH);
    if !renamed {
      return RenameFailed;
    }
    WriteClearRename(old(vol.files), HELLO_PATH, FOO_PATH, greeting);
    var present := vol.Stat(FOO_PATH);
    if !present {
      return ReadOpenFailed;
    }
    var content := vol.files[FOO_PATH];
    GreetingNoNul(name);
    var line := ReadLine(content);
    r := LineRead(line);
  }

  datatype Option<T> = None | Some(value: T)

  /** What one run reports: the smoke test's outcome, then each speed test's,
      or `None` where the run returned before reaching it. */
  datatype Run = Run(smoke: SmokeResult, write: Option<Report>, read: Option<Report>)

  /** Each speed test that got as far as its transfer loop ran a session of
      the benchmark's sizes against its own I/O oracle. */
  ghost predicate BenchmarkSessions(writeEnv: Env, readEnv: Env, written: Report, read: Report)
  {
    && (written.Measured? ==>
          Session(WriteMode, BENCHMARK.fileSize, BENCHMARK.bufferSize, writeEnv.io,
                  written.transferred, written.requests, written.status))
    && (read.Measured? ==>
          Session(ReadMode, BENCHMARK.fileSize, BENCHMARK.bufferSize, readEnv.io,
                  read.transferred, read.requests, read.status))
  }

  /** Lines 401-402: the write test, then the read test, on the benchmark's
      configuration. Only the test file changes; it is gone afterwards unless
      the write test created it and the read test could not get its buffer. */
  method SpeedTests(vol: Volume, writeEnv: Env, readEnv: Env) returns (written: Report, read: Report)
    modifies vol
    ensures SameOutside(old(vol.files), vol.files, {TEST_FILE_PATH})
    ensures TEST_FILE_PATH in vol.files <==> writeEnv.allocOk && writeEnv.openOk && !readEnv.allocOk
    ensures written.Measured? <==> writeEnv.allocOk && writeEnv.openOk
    ensures written.Measured? && written.status == Completed ==>
              written.requests == Repeat(TEST_BUFFER_SIZE, 32)
    ensures TEST_FILE_PATH in vol.files ==>
              vol.files[TEST_FILE_PATH] ==
                Written(Pattern.Block(BENCHMARK.bufferSize), written.requests, writeEnv.io)
    ensures read.Measured? <==> readEnv.allocOk && written.Measured?
    ensures BenchmarkSessions(writeEnv, readEnv, written, read)
  {
    written := WriteSpeedTest(vol, BENCHMARK, writeEnv);
    read := ReadSpeedTest(vol, BENCHMARK, readEnv);
    BenchmarkPlan();
  }

  /** The speed tests touch only the test file, so what the smoke test left
      at `hello.txt` and `foo.txt` survives them. */
  lemma SpeedTestsKeepSmoke(before: Files, afterSmoke: Files, after: Files, name: seq<byte>)
    requires afterSmoke == Removed(before, HELLO_PATH)[FOO_PATH := Greeting(name)]
    requires SameOutside(afterSmoke, after, {TEST_FILE_PATH})
    ensures HELLO_PATH !in after
    ensures FOO_PATH in after && after[FOO_PATH] == Greeting(name)
    ensures SameOutside(before, after, {HELLO_PATH, FOO_PATH, TEST_FILE_PATH})
  {
    assert TEST_FILE_PATH[8] != FOO_PATH[8] && TEST_FILE_PATH[8] != HELLO_PATH[8];
    assert SameOutside(before, afterSmoke, {HELLO_PATH, FOO_PATH});
    SameOutsideCompose(before, afterSmoke, after, {HELLO_PATH, FOO_PATH}, {TEST_FILE_PATH});
    assert {HELLO_PATH, FOO_PATH} + {TEST_FILE_PATH} == {HELLO_PATH, FOO_PATH, TEST_FILE_PATH};
  }

  /** `app_main` from line 342 on, with the card mounted. `name` is the card's
      product name (`card->cid.name`, a `char[8]`), `createOk` the outcome of
      `fopen(hello.txt, "w")`, and the two environments what the write and the
      read speed test meet. */
  method AppMain(vol: Volume, name: seq<byte>, createOk: bool, writeEnv: Env, readEnv: Env)
    returns (run: Run)
    requires NUL !in name
    modifies vol
    ensures !createOk ==> run == Run(CreateFailed, None, None) && vol.files == old(vol.files)
    ensures createOk ==>
              && run.smoke == LineRead(ReadBack(Greeting(name)))
              && run.write.Some? && run.read.Some?
              && HELLO_PATH !in vol.files
              && FOO_PATH in vol.files && vol.files[FOO_PATH] == Greeting(name)
              && (TEST_FILE_PATH in vol.files <==>
                    writeEnv.allocOk && writeEnv.openOk && !readEnv.allocOk)
    ensures createOk && |name| < 8 && NEWLINE !in name ==> run.smoke == LineRead(Salutation(name))
    ensures createOk ==> SameOutside(old(vol.files), vol.files, {HELLO_PATH, FOO_PATH, TEST_FILE_PATH})
    ensures createOk ==> BenchmarkSessions(writeEnv, readEnv, run.write.value, run.read.value)
    ensures createOk && run.write.value.Measured? && run.write.value.status == Completed ==>
              run.write.value.requests == Repeat(TEST_BUFFER_SIZE, 32)
  {
    var smoke := SmokeTest(vol, name, createOk);
    if !smoke.LineRead? {
      return Run(smoke, None, None);
    }
    ghost var afterSmoke := vol.files;
    var written, read := SpeedTests(vol, writeEnv, readEnv);
    SpeedTestsKeepSmoke(old(vol.files), afterSmoke, vol.files, name);
    run := Run(smoke, Some(written), Some(read));
    if |name| < 8 && NEWLINE !in name {
      GreetingRoundTrip(name);
    }
  }
}
