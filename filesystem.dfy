/** The mounted FAT volume as the program's `stat`, `unlink`, `rename` and
    `fopen` calls see it: a map from path to file content, changed in place by
    `unlink`, `rename` and the opens in write mode. */
module FileSystem {
  import opened Bytes

  type Path = string

  type Files = map<Path, seq<byte>>

  /** The volume after `p` is deleted; deleting an absent path changes nothing. */
  function Removed(fs: Files, p: Path): (r: Files)
    ensures p !in r
    ensures r.Keys == fs.Keys - {p}
    ensures forall q :: q in r ==> r[q] == fs[q]
  {
    fs - {p}
  }

  /** Removing a path that is already absent is a no-op. */
  lemma RemovedAbsent(fs: Files, p: Path)
    requires p !in fs
    ensures Removed(fs, p) == fs
  {
  }

  /** Ensure-absent is idempotent: removing twice is removing once. */
  lemma RemovedIdempotent(fs: Files, p: Path)
    ensures Removed(Removed(fs, p), p) == Removed(fs, p)
  {
  }

  /** The volume after the file at `src` is renamed to `dst`. */
  function Moved(fs: Files, src: Path, dst: Path): (r: Files)
    requires src in fs && dst !in fs
    ensures src !in r
    ensures dst in r && r[dst] == fs[src]
    ensures r.Keys == fs.Keys - {src} + {dst}
    ensures forall q :: q in r && q != dst ==> r[q] == fs[q]
  {
    (fs - {src})[dst := fs[src]]
  }

  /** Writing `data` to `src`, clearing `dst` and renaming `src` to `dst`
      leaves `data` at `dst`, nothing at `src`, and every other path as it was. */
  lemma WriteClearRename(fs: Files, src: Path, dst: Path, data: seq<byte>)
    requires src != dst
    ensures Moved(Removed(fs[src := data], dst), src, dst) == Removed(fs, src)[dst := data]
  {
    var left := Moved(Removed(fs[src := data], dst), src, dst);
    var right := Removed(fs, src)[dst := data];
    assert left.Keys == right.Keys;
    forall q | q in left
      ensures left[q] == right[q]
    {
    }
  }

  /** Every path outside `touched` has the same presence and the same content
      in `after` as in `before`. */
  ghost predicate SameOutside(before: Files, after: Files, touched: set<Path>)
  {
    forall p :: p !in touched ==>
      (p in after <==> p in before) && (p in after ==> after[p] == before[p])
  }

  /** Two updates that each keep the paths outside their own set keep the
      paths outside the union. */
  lemma SameOutsideCompose(a: Files, b: Files, c: Files, s: set<Path>, t: set<Path>)
    requires SameOutside(a, b, s) && SameOutside(b, c, t)
    ensures SameOutside(a, c, s + t)
  {
  }

  class Volume {
    var files: Files

    constructor (initial: Files)
      ensures files == initial
    {
      files := initial;
    }

    /** `stat(p, &st) == 0`: whether a file exists at `p`. */
    method Stat(p: Path) returns (found: bool)
      ensures found <==> p in files
    {
      found := p in files;
    }

    /** `unlink(p)`: succeeds, deleting the file, exactly when `p` exists. */
    method Unlink(p: Path) returns (ok: bool)
      modifies this
      ensures ok <==> p in old(files)
      ensures files == Removed(old(files), p)
    {
      ok := p in files;
      files := Removed(files, p);
    }

    /** The `stat` then `unlink` idiom: leaves `p` absent and every other
        path as it was. */
    method EnsureAbsent(p: Path)
      modifies this
      ensures files == Removed(old(files), p)
      ensures p !in files
      ensures forall q :: q != p ==> (q in files <==> q in old(files))
      ensures forall q :: q != p && q in files ==> files[q] == old(files)[q]
    {
      var present := Stat(p);
      if present {
        var _ := Unlink(p);
      }
    }

    /** `rename(src, dst)` on FAT: fails when `src` is missing or `dst`
        exists (it never overwrites), and then changes nothing. */
    method Rename(src: Path, dst: Path) returns (ok: bool)
      modifies this
      ensures ok <==> src in old(files) && dst !in old(files)
      ensures ok ==> files == Moved(old(files), src, dst)
      ensures !ok ==> files == old(files)
    {
      ok := src in files && dst !in files;
      if ok {
        files := Moved(files, src, dst);
      }
    }

    /** A successful `fopen(p, "w")`: creates the file, or truncates it. */
    method Create(p: Path)
      modifies this
      ensures files == old(files)[p := []]
    {
      files := files[p := []];
    }

    /** Bytes written through a handle open on `p` land at its end. */
    method Append(p: Path, data: seq<byte>)
      requires p in files
      modifies this
      ensures files == old(files)[p := old(files)[p] + data]
    {
      files := files[p := files[p] + data];
    }
  }
}
