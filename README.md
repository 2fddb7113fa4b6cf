# SD card read/write benchmark — a verified model

This project models the benchmark code of an ESP32-S3 example program that
mounts an SD card through the SDMMC peripheral. With the card mounted, the
program does three things:

- a smoke test: write `"Hello <card name>!\n"` to `/sdcard/hello.txt`, make sure
  `/sdcard/foo.txt` is absent, rename the file to it, read one line back into a
  64-byte array and strip the newline;
- a write speed test: delete any old `/sdcard/test.txt`, fill a 128 KiB buffer
  with `i & 0xFF`, and write 4 MiB in buffer-sized chunks;
- a read speed test: read the file back in chunks, then delete it.

Both speed tests run the same chunk loop. While fewer than `TEST_FILE_SIZE`
bytes are done, it asks for `min(remaining, TEST_BUFFER_SIZE)` bytes. It stops
at the first call that returns a different count, and that count is not added.
The read test also logs whether `ferror` was set or the file ended early.

Modules (one file each):

- `Bytes` (`bytes.dfy`): bytes, C strings stored in `char` arrays, and the
  `strchr`-style scan `Find`.
- `Pattern` (`pattern.dfy`): the buffer fill loop, in place on an `array`.
- `Transfer` (`transfer.dfy`): the chunk loop `Drive`. The chunk sizes it must
  request are given by `ChunkPlan`, and the state of a finished session by
  `Session`. The lemmas prove the chunk bounds, the early exit, and the
  benchmark's 32 × 128 KiB instance.
- `FileSystem` (`filesystem.dfy`): the mounted volume as a class `Volume`
  whose field `files: map<Path, seq<byte>>` is changed in place by `stat` +
  `unlink`, `rename`, and the write-mode `fopen`. `Removed` and `Moved` are the
  specification functions for these updates.
- `LineIO` (`lineio.dfy`): `fgets` into an `array<byte>` and the
  `strchr` + `*pos = '\0'` newline strip.
- `SpeedTest` (`speedtest.dfy`): `test_write_speed` and `test_read_speed`,
  and the content the write test leaves in the file.
- `App` (`app.dfy`): the smoke test and the rest of `app_main` once the card is
  mounted.

The environment is passed in as parameters:

- whether each allocation succeeds;
- whether the write-mode `fopen` succeeds;
- an I/O oracle `io(k, n)`, the `Reply(count, ferror)` of the k-th
  `fwrite`/`fread` call when asked for `n` bytes;
- the two readings of `esp_timer_get_time`.

The read-mode `fopen` fails exactly when the file is missing. `rename` fails
exactly when the source is missing or the target exists, because FAT's rename
does not overwrite. Buffer size and file size are parameters (`Config`). The
program's own values are the constants `App.TEST_BUFFER_SIZE` (131072) and
`App.TEST_FILE_SIZE` (4194304).

The model follows the code as written:

- A zero or negative elapsed time is not reported as a separate outcome.
- The speed line always reports `TEST_FILE_SIZE` bytes, even after a short
  transfer.
- Only the read side tells an error apart from an early end of file. A short
  write is a single kind of failure.
- `app_main` returns early without unmounting the card.

## Model

| member | source | states |
|---|---|---|
| `Pattern.Fill` | main/sd_card_example_main.c:89-92 | After the loop, every index `i` of the buffer holds `i mod 256`. The whole buffer equals `Block(length)`, and its length is unchanged. |
| `Bytes.Find` | main/sd_card_example_main.c:392 | The index of the first occurrence of a byte, or the length when there is none. Nothing before that index is the byte. |
| `Bytes.CString` | main/sd_card_example_main.c:398 | The string held by a `char` array is the prefix before the first NUL. It contains no NUL, and the NUL follows it if the array is longer. |
| `Transfer.ChunkPlan` | main/sd_card_example_main.c:111-115 | Definition, no contract of its own: the sequence of `to_write` values (and `to_read`, lines 184-188) an uninterrupted session passes to the I/O calls, each `min(remaining, bufferSize)`. The lemmas below state its properties. |
| `Transfer.Session` | main/sd_card_example_main.c:109-123 | Definition, no contract of its own: the state the loop leaves behind, as described under `Transfer.Drive`. |
| `Transfer.ChunkPlanSum` | main/sd_card_example_main.c:108-123 | The chunks planned for `remaining` bytes add up to exactly `remaining`. |
| `Transfer.ChunkPlanBounds` | main/sd_card_example_main.c:111-115 | Every planned chunk satisfies `0 < chunk <= bufferSize`. Every chunk except the last is exactly `bufferSize`. |
| `Transfer.ChunkPlanRequests` | main/sd_card_example_main.c:111-115 | Planned chunk k is `min(fileSize - sum of chunks before k, bufferSize)`, the value of `to_write`/`to_read`. |
| `Transfer.ChunkPlanSplit` | main/sd_card_example_main.c:109-123 | For `n` buffers plus a remainder `r < bufferSize`, the plan is `n` full chunks followed by one chunk of exactly `r` bytes (none if `r = 0`). No padding, and nothing follows. |
| `Transfer.ChunkPlanShape` | main/sd_card_example_main.c:109-123 | The plan is `fileSize / bufferSize` full chunks, plus a final `fileSize % bufferSize` chunk when that is not zero. Its length is the ceiling of the quotient. |
| `Transfer.ChunkPlanMultiple` | main/sd_card_example_main.c:109-123 | When the file size is a multiple of the buffer size, every chunk is one whole buffer. |
| `Transfer.BenchmarkPlan` | main/sd_card_example_main.c:48-49 | With 128 KiB buffers and a 4 MiB file, the plan is exactly 32 chunks of 131072 bytes. |
| `Transfer.BenchmarkPlanPlusOne` | main/sd_card_example_main.c:111-115 | With a 4194305-byte file, the plan is 32 full chunks and then one 1-byte chunk. |
| `Transfer.Classify` | main/sd_card_example_main.c:195-202 | Any short write is `WriteFailed`. A short read is `ReadError` exactly when `ferror` is set, and `UnexpectedEof` otherwise. The outcomes are distinct. |
| `Transfer.Drive` | main/sd_card_example_main.c:108-123 | The loop shared by both tests (the read copy is lines 181-208) meets `Session`. The counter never exceeds `fileSize`. The requests are a prefix of the chunk plan. Every request before the last got a full count. The session is `Completed` exactly when the counter reaches `fileSize`, and then every planned chunk was requested. Otherwise the last request came back short, no further chunk was requested, the cause is classified, and the counter is the sum of the earlier chunks. |
| `Transfer.Advance` | main/sd_card_example_main.c:122 | A full reply to the next planned chunk preserves the loop invariant `Progress`. The counter grows by that chunk and stays at most `fileSize`. |
| `Transfer.StopShort` | main/sd_card_example_main.c:116-121 | A short reply to the next chunk ends the session as `Failed`. The counter does not change, because the short count is not added. |
| `Transfer.Finish` | main/sd_card_example_main.c:109 | Leaving the loop with the counter at `fileSize` means the requests were the whole plan, all answered in full. |
| `Transfer.RequestBounds` | main/sd_card_example_main.c:111-115 | Every request of a session satisfies `0 < request <= bufferSize`. Every request before the last of them is a whole buffer. |
| `Transfer.FailedAfterFullChunks` | main/sd_card_example_main.c:116-122 | A session that stops at its k-th request has a counter equal to `(k - 1) * bufferSize`. |
| `FileSystem.Removed` | main/sd_card_example_main.c:76-79 | After a delete, the path is absent, the other paths keep their presence, and their contents are unchanged. |
| `FileSystem.RemovedAbsent` | main/sd_card_example_main.c:363-367 | Ensure-absent on a path that is already absent is a no-op. |
| `FileSystem.RemovedIdempotent` | main/sd_card_example_main.c:76-79 | Applying ensure-absent twice equals applying it once. |
| `FileSystem.Moved` | main/sd_card_example_main.c:371 | After a rename, the source is absent, the target holds the source's old content, and every other path is unchanged. |
| `FileSystem.WriteClearRename` | main/sd_card_example_main.c:347-375 | Writing to `hello.txt`, clearing `foo.txt` and renaming leaves the data at `foo.txt` and nothing at `hello.txt`. All other files are unchanged. |
| `FileSystem.Volume.Stat` | main/sd_card_example_main.c:76 | `stat` succeeds exactly when the path exists. |
| `FileSystem.Volume.Unlink` | main/sd_card_example_main.c:222 | `unlink` succeeds exactly when the path exists. The volume becomes `Removed(old, p)`. |
| `FileSystem.Volume.EnsureAbsent` | main/sd_card_example_main.c:363-367 | `stat` then `unlink`: the path is absent afterwards. Every other path keeps its presence and content. |
| `FileSystem.Volume.Rename` | main/sd_card_example_main.c:371-375 | Succeeds exactly when the source exists and the target does not. On success the volume is `Moved`; on failure it is unchanged. |
| `FileSystem.Volume.Create` | main/sd_card_example_main.c:96 | `fopen(p, "w")` leaves `p` present and empty, whether it existed before or not. |
| `FileSystem.Volume.Append` | main/sd_card_example_main.c:354 | Data written through the handle is appended to the file. |
| `LineIO.FGetsRead` | main/sd_card_example_main.c:388 | What `fgets` consumes is a prefix of the stream, at most `n - 1` bytes long, with no newline before its last byte. It ends at the end of the stream, at the capacity, or right after the first newline. |
| `LineIO.FGets` | main/sd_card_example_main.c:387-388 | Reads something exactly when the stream is not empty and the array has room for a byte and a NUL. Stores those bytes and a NUL after them, untouched beyond. When nothing is read, the array is unchanged. |
| `LineIO.CutAtNewline` | main/sd_card_example_main.c:392-396 | A prefix of the string with no newline, followed in the string by a newline when it is shorter. |
| `LineIO.StripNewline` | main/sd_card_example_main.c:392-396 | Replaces only the first newline of the C string with NUL, if there is one. The C string left in the array is the old one cut at its first newline. |
| `SpeedTest.Written` | main/sd_card_example_main.c:116 | Definition, no contract of its own: the bytes the `fwrite` calls accept, with call k handing over the first `requests[k]` buffer bytes and writing as many as it reports. |
| `SpeedTest.ImageExtend` | main/sd_card_example_main.c:89-92 | Appending up to one more filled buffer after `n` whole buffers continues the repeating pattern. |
| `SpeedTest.WrittenImage` | main/sd_card_example_main.c:108-123 | While every write has been accepted in full, the bytes appended so far are byte `j` = `(j mod bufferSize) mod 256`, and there are as many as the counter says. |
| `SpeedTest.CompletedWriteImage` | main/sd_card_example_main.c:82-123 | After a completed write session, the test file is exactly `fileSize` bytes of the repeated fill pattern. |
| `SpeedTest.WriteSpeedTest` | main/sd_card_example_main.c:70-139 | The test file is removed first. A failed allocation or failed `fopen` returns early and leaves it absent. Otherwise the write session meets `Session`, the file holds the bytes the `fwrite` calls accepted, the reported byte count is `fileSize`, and the elapsed time is `end - start`. |
| `SpeedTest.ReadSpeedTest` | main/sd_card_example_main.c:155-223 | A failed allocation, or a missing file, returns early and changes nothing. Otherwise the read session meets `Session`, the reported byte count is `fileSize`, and the test file is deleted. |
| `App.Salutation` | main/sd_card_example_main.c:354 | Definition, no contract of its own: `"Hello " + name + "!"`, the `fprintf` format without its newline. |
| `App.Greeting` | main/sd_card_example_main.c:354 | Definition, no contract of its own: the line the `fprintf` format produces, the salutation followed by a newline. |
| `App.ReadBack` | main/sd_card_example_main.c:387-396 | Definition, no contract of its own: what `fgets` with 64 bytes, the newline strip and `%s` make of a file's content. The `Greeting*` lemmas say what it gives for the greeting. |
| `App.GreetingNoNul` | main/sd_card_example_main.c:354 | The line the program writes contains a NUL only if the card name does. |
| `App.GreetingReadBack` | main/sd_card_example_main.c:387-396 | Reading back `"Hello " + S + "!\n"` gives the prefix `"Hello " + S + "!"`, cut at its first newline and at 63 bytes. |
| `App.GreetingRoundTrip` | main/sd_card_example_main.c:347-396 | When S has no newline and `"Hello " + S + "!"` is shorter than 64 bytes, the line read back is exactly that prefix. |
| `App.GreetingTruncated` | main/sd_card_example_main.c:387-388 | When S has no newline and the prefix is 64 bytes or longer, the line read back is its first 63 bytes. |
| `App.ReadLine` | main/sd_card_example_main.c:386-396 | `fgets` into a 64-byte array, then the newline strip, yields `ReadBack(content)` for any non-empty content without NUL. |
| `App.WriteFile` | main/sd_card_example_main.c:347-355 | Opening for write, printing the line and closing leaves exactly that line in the file. |
| `App.SmokeTest` | main/sd_card_example_main.c:342-398 | If creating `hello.txt` fails, nothing changes. Otherwise the rename succeeds and the line read back is `ReadBack(Greeting(name))`. `hello.txt` is then absent, `foo.txt` holds the greeting, and every other file is unchanged. |
| `App.SpeedTests` | main/sd_card_example_main.c:401-402 | Only the test file changes. It is present afterwards exactly when the write test created it and the read test could not get its buffer. When left behind, it holds the bytes the `fwrite` calls accepted. The write test measures exactly when it got its buffer and its file. The read test measures exactly when it got its buffer and the write test created the file. Each measured report meets `Session` for the benchmark's sizes. A completed write session makes 32 requests of 131072 bytes. |
| `App.SpeedTestsKeepSmoke` | main/sd_card_example_main.c:401-402 | Because the speed tests touch only `test.txt`, `hello.txt` stays absent and `foo.txt` keeps the greeting. No other file changes across the whole run. |
| `App.AppMain` | main/sd_card_example_main.c:342-402 | A failed create returns before the speed tests and changes nothing; otherwise both speed tests run. A card name under 8 bytes without a newline comes back as `"Hello " + name + "!"`. The final state of `hello.txt`, `foo.txt` and `test.txt` is as in `SmokeTest` and `SpeedTests`, and every other file is unchanged. Both measured reports meet `Session`, and a completed write makes 32 requests of 131072 bytes. |

## Left out

- Mounting and unmounting are not modelled: the SDMMC host and slot configuration, GPIO pull-ups, the mount options, `esp_vfs_fat_sdmmc_mount` and `esp_vfs_fat_sdcard_unmount` (lines 259-337 and 403). They are hardware setup and foreign library calls. `AppMain` starts with the card mounted. Because unmount is outside the model, the early returns that skip it (lines 351, 374, 383) show up only as early returns.
- Throughput in MB/s and the float seconds (lines 132-133 and 213-214) are floating point. The model keeps only the integer elapsed time `end - start` in microseconds, from two clock readings passed in. Like the code, it applies no guard against a zero elapsed time.
- `fflush`, `fsync` and `fclose` (lines 126-128 and 209) have no effect on the model's state. Durability is not modelled, and neither is their order before the second clock reading.
- `malloc` and `heap_caps_malloc(..., MALLOC_CAP_DMA)` are a boolean that makes the test return early. DMA capability is not modelled. The read buffer is not modelled at all, because the model does not track the bytes `fread` stores.
- The bytes `fread` delivers are not modelled. The read oracle is independent of the file's content.
- `App.WriteFile`: `fprintf(f, "Hello %s!\n", ...)` and `fclose` on `hello.txt` (lines 354-355) are assumed to write the whole greeting. The code checks neither call; a short or failed write is not modelled, and the read-back lemmas rest on that assumption.
- Device errors of `rename`, `unlink` and `fopen(..., "r")` are not modelled. They fail only for the file-name reasons given above, so the smoke test's `RenameFailed` and `ReadOpenFailed` branches are unreachable in the model.
- `ESP_LOG*` output, `sdmmc_card_print_info` and `errno` are diagnostics only.
- `App.SmokeTest`: the return value of `fgets` is not checked (line 388). The proof assumes nothing about the contents of the freshly allocated array, just as C's `char line[64]` starts uninitialised. The model proves that `fgets` always reads something here, because the file is never empty, so the uninitialised-array case cannot arise. A read error inside `fgets` is not modelled.
- `LineIO.FGets`: with a capacity below 2 it reads nothing and leaves the array unchanged. That is one of the behaviours C libraries choose; the program always passes 64.
- `SpeedTest.WriteSpeedTest` appends the accepted bytes of all `fwrite` calls in one step after the loop, not call by call. Nothing reads the file in between.
- `Transfer.Drive` requires a positive buffer size. With a zero-size buffer the C loop never ends, and the program's buffer is 128 KiB.
- `size_t` width: the counters are unbounded integers in the model. `Session` keeps the counter at most `fileSize`, so 32 bits are enough whenever the file size fits in 32 bits, as 4 MiB does.
- Card names are taken as C strings, so they contain no NUL. The model does not bound their length to the `char[8]` they live in, except in `App.AppMain`'s round-trip clause.
