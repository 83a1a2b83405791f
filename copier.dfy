/**
 * `tqdm_copy_recursive`: a pre-scan that adds up the sizes of the source
 * files that are not symbolic links, then a copy of every listed file into
 * the destination volume, 64 KiB at a time, with a progress counter that
 * grows by each chunk written. A file whose destination already has the
 * same size is skipped; a file whose copy fails is counted in full and the
 * copy goes on with the next one.
 *
 * The `os.walk` listing is an input sequence of directories, each with the
 * names of its files, in the order the walk yields them. Paths are
 * relative to the source or destination root, as lists of names. The
 * source is a value: the bytes of each readable file (a path absent from
 * the map cannot be read or sized) and the set of symbolic links among
 * them. The destination volume and the progress counter are objects the
 * copy updates in place. Failures the destination can raise form an
 * oracle: for each path, whether opening the destination fails, or after
 * how many chunks a write fails (a count at or beyond the number of chunks
 * stands for `copystat` failing once the data is written).
 */
module Copier {
  import opened Wrappers

  newtype byte = x: int | 0 <= x < 256

  type Bytes = seq<byte>

  type Path = seq<string>

  /** `chunk_size = 65536`. */
  const ChunkSize: nat := 65536

  /** One triple of `os.walk`: the directory and the names of its files. */
  datatype WalkEntry = WalkEntry(dir: Path, files: seq<string>)

  datatype Source = Source(contents: map<Path, Bytes>, links: set<Path>)

  datatype Fault = BeforeWrite | AfterChunks(chunks: nat)

  /** What copying one file does: the destination files after it, and the progress updates it makes. */
  datatype FileEffect = FileEffect(files: map<Path, Bytes>, updates: seq<nat>)

  function Sum(s: seq<nat>): nat
    decreases |s|
  {
    if s == [] then 0 else Sum(s[..|s| - 1]) + s[|s| - 1]
  }

  lemma {:induction false} SumAppend(a: seq<nat>, b: seq<nat>)
    ensures Sum(a + b) == Sum(a) + Sum(b)
    decreases |b|
  {
    if b != [] {
      assert (a + b)[..|a + b| - 1] == a + b[..|b| - 1];
      assert (a + b)[|a + b| - 1] == b[|b| - 1];
      assert Sum(a + b) == Sum(a + b[..|b| - 1]) + b[|b| - 1];
      SumAppend(a, b[..|b| - 1]);
    } else {
      assert a + b == a;
    }
  }

  /** `s[:k]`. */
  function Take(k: nat, s: seq<nat>): (r: seq<nat>)
    ensures |r| <= k && |r| <= |s| && r == s[..|r|]
    ensures k <= |s| ==> |r| == k
  {
    s[..if k < |s| then k else |s|]
  }

  // ---------------------------------------------------------------------
  // Chunks.
  // ---------------------------------------------------------------------

  /** The lengths of the successive `read(65536)` results on a file of `len` bytes, up to the empty one. */
  function ChunkSizes(len: nat): seq<nat>
    decreases len
  {
    if len == 0 then []
    else
      var c := if len < ChunkSize then len else ChunkSize;
      [c] + ChunkSizes(len - c)
  }

  /** The chunks are non-empty, at most 64 KiB, all full but the last, and add up to the file. */
  lemma {:induction false} ChunkSizesSpec(len: nat)
    ensures var cs := ChunkSizes(len);
      && Sum(cs) == len
      && (forall i :: 0 <= i < |cs| ==> 0 < cs[i] <= ChunkSize)
      && (forall i :: 0 <= i < |cs| - 1 ==> cs[i] == ChunkSize)
      && |cs| == (len + ChunkSize - 1) / ChunkSize
    decreases len
  {
    if len > 0 {
      var c := if len < ChunkSize then len else ChunkSize;
      ChunkSizesSpec(len - c);
      SumAppend([c], ChunkSizes(len - c));
      assert [c][..0] == [];
    }
  }

  /** The bytes written before the chunk after the first `k` fails: `k` full chunks, or the whole file. */
  lemma {:induction false} TakeChunksSum(len: nat, k: nat)
    ensures Sum(Take(k, ChunkSizes(len))) == if k * ChunkSize < len then k * ChunkSize else len
    decreases k
  {
    var cs := ChunkSizes(len);
    if k == 0 {
    } else if len == 0 {
      assert Take(k, cs) == [];
    } else {
      var c := if len < ChunkSize then len else ChunkSize;
      TakeChunksSum(len - c, k - 1);
      assert Take(k, cs) == [c] + Take(k - 1, ChunkSizes(len - c));
      SumAppend([c], Take(k - 1, ChunkSizes(len - c)));
      assert [c][..0] == [];
    }
  }

  lemma TakeChunksFits(len: nat, k: nat)
    ensures Sum(Take(k, ChunkSizes(len))) <= len
  {
    TakeChunksSum(len, k);
  }

  // ---------------------------------------------------------------------
  // The specification: pre-scan total and the effect of the copy.
  // ---------------------------------------------------------------------

  /** The paths of the files of one walk entry, in listing order. */
  function EntryPaths(e: WalkEntry): seq<Path> {
    seq(|e.files|, k requires 0 <= k < |e.files| => e.dir + [e.files[k]])
  }

  /** Every file path the walk lists, in listing order. */
  function Listing(walk: seq<WalkEntry>): seq<Path>
    decreases |walk|
  {
    if walk == [] then [] else Listing(walk[..|walk| - 1]) + EntryPaths(walk[|walk| - 1])
  }

  /** The directories the walk visits. */
  function Dirs(walk: seq<WalkEntry>): set<Path>
    decreases |walk|
  {
    if walk == [] then {} else Dirs(walk[..|walk| - 1]) + {walk[|walk| - 1].dir}
  }

  /** What the pre-scan adds for one path: the size of a readable file that is not a link. */
  function ScanSize(src: Source, p: Path): nat {
    if p !in src.links && p in src.contents then |src.contents[p]| else 0
  }

  function ScanTotal(src: Source, ps: seq<Path>): nat
    decreases |ps|
  {
    if ps == [] then 0 else ScanTotal(src, ps[..|ps| - 1]) + ScanSize(src, ps[|ps| - 1])
  }

  /** The destination holds `p` with as many bytes as the readable source file. */
  predicate SameSize(src: Source, files: map<Path, Bytes>, p: Path) {
    p in files && p in src.contents && |src.contents[p]| == |files[p]|
  }

  /** One iteration of the file loop of the copy phase. */
  function FileStep(src: Source, faults: map<Path, Fault>, p: Path, files: map<Path, Bytes>): FileEffect {
    if SameSize(src, files, p) then FileEffect(files, [|src.contents[p]|])
    else if p !in src.contents then FileEffect(files, [])
    else
      var data := src.contents[p];
      if p !in faults then FileEffect(files[p := data], ChunkSizes(|data|))
      else match faults[p]
        case BeforeWrite => FileEffect(files, [|data|])
        case AfterChunks(k) =>
          var done := Take(k, ChunkSizes(|data|));
          TakeChunksFits(|data|, k);
          FileEffect(files[p := data[..Sum(done)]], done + [|data|])
  }

  /** The file loop over `ps`, from destination files `files`. */
  function RunFiles(src: Source, faults: map<Path, Fault>, ps: seq<Path>, files: map<Path, Bytes>): FileEffect
    decreases |ps|
  {
    if ps == [] then FileEffect(files, [])
    else
      var before := RunFiles(src, faults, ps[..|ps| - 1], files);
      var step := FileStep(src, faults, ps[|ps| - 1], before.files);
      FileEffect(step.files, before.updates + step.updates)
  }

  lemma ScanTotalSnoc(src: Source, ps: seq<Path>, p: Path)
    ensures ScanTotal(src, ps + [p]) == ScanTotal(src, ps) + ScanSize(src, p)
  {
    assert (ps + [p])[..|ps|] == ps;
  }

  lemma RunFilesSnoc(src: Source, faults: map<Path, Fault>, ps: seq<Path>, p: Path, files: map<Path, Bytes>)
    ensures var before := RunFiles(src, faults, ps, files);
      var step := FileStep(src, faults, p, before.files);
      RunFiles(src, faults, ps + [p], files) == FileEffect(step.files, before.updates + step.updates)
  {
    assert (ps + [p])[..|ps|] == ps;
  }

  lemma EntryPathsSnoc(before: seq<Path>, e: WalkEntry, j: nat)
    requires j < |e.files|
    ensures before + EntryPaths(e)[..j + 1] == (before + EntryPaths(e)[..j]) + [e.dir + [e.files[j]]]
  {
    assert EntryPaths(e)[..j + 1] == EntryPaths(e)[..j] + [EntryPaths(e)[j]];
  }

  lemma ListingSnoc(walk: seq<WalkEntry>, i: nat)
    requires i < |walk|
    ensures Listing(walk[..i + 1]) == Listing(walk[..i]) + EntryPaths(walk[i])
    ensures Dirs(walk[..i + 1]) == Dirs(walk[..i]) + {walk[i].dir}
  {
    assert walk[..i + 1][..i] == walk[..i];
  }

  // ---------------------------------------------------------------------
  // The objects the copy updates.
  // ---------------------------------------------------------------------

  /** The numeric part of the `tqdm` bar: its total and its counter `n`. */
  class ProgressBar {
    const total: nat
    var n: nat
    /** Every amount passed to `update`, in order. */
    ghost var updates: seq<nat>

    ghost predicate Valid()
      reads this
    {
      n == Sum(updates)
    }

    constructor (total: nat)
      ensures this.total == total && n == 0 && updates == [] && Valid()
    {
      this.total := total;
      n := 0;
      updates := [];
    }

    /** `pbar.update(k)`. */
    method Update(k: nat)
      requires Valid()
      modifies this
      ensures Valid() && updates == old(updates) + [k] && n == old(n) + k
    {
      assert (updates + [k])[..|updates|] == updates;
      n := n + k;
      updates := updates + [k];
    }
  }

  /** The destination volume: its files and directories, by path relative to its root. */
  class Volume {
    var files: map<Path, Bytes>
    var dirs: set<Path>

    constructor (files: map<Path, Bytes>, dirs: set<Path>)
      ensures this.files == files && this.dirs == dirs
    {
      this.files := files;
      this.dirs := dirs;
    }

    /** `os.makedirs(path, exist_ok=True)`. */
    method MakeDirs(d: Path)
      modifies this
      ensures dirs == old(dirs) + {d} && files == old(files)
    {
      dirs := dirs + {d};
    }

    /** `open(path, 'wb')`: the file exists and is empty. */
    method Create(p: Path)
      modifies this
      ensures files == old(files)[p := []] && dirs == old(dirs)
    {
      files := files[p := []];
    }

    /** `write(chunk)` on a file opened for writing. */
    method Append(p: Path, chunk: Bytes)
      requires p in files
      modifies this
      ensures files == old(files)[p := old(files)[p] + chunk] && dirs == old(dirs)
    {
      files := files[p := files[p] + chunk];
    }
  }

  // ---------------------------------------------------------------------
  // The two phases.
  // ---------------------------------------------------------------------

  /** The first walk: the total the progress bar is created with. */
  method PreScan(src: Source, walk: seq<WalkEntry>) returns (total: nat)
    ensures total == ScanTotal(src, Listing(walk))
  {
    total := 0;
    var i := 0;
    while i < |walk|
      invariant 0 <= i <= |walk|
      invariant total == ScanTotal(src, Listing(walk[..i]))
    {
      ListingSnoc(walk, i);
      total := ScanEntry(src, Listing(walk[..i]), walk[i], total);
      i := i + 1;
    }
    assert walk[..i] == walk;
  }

  /** The pre-scan's loop over the files of one directory, adding to the total so far. */
  method ScanEntry(src: Source, ghost before: seq<Path>, e: WalkEntry, total0: nat) returns (total: nat)
    requires total0 == ScanTotal(src, before)
    ensures total == ScanTotal(src, before + EntryPaths(e))
  {
    total := total0;
    var j := 0;
    ScanStart(src, before, e);
    while j < |e.files|
      invariant 0 <= j <= |e.files|
      invariant Scanned(src, before, e, j, total)
    {
      var p := e.dir + [e.files[j]];
      ghost var t := total;
      if p !in src.links {
        if p in src.contents {
          total := total + |src.contents[p]|;
        }
      }
      ScanStep(src, before, e, j, t, total);
      j := j + 1;
    }
    ScanEnd(src, before, e, total);
  }

  /** The total after the first `j` files of directory `e`, on top of the total for `before`. */
  ghost predicate Scanned(src: Source, before: seq<Path>, e: WalkEntry, j: nat, total: nat)
    requires j <= |e.files|
  {
    total == ScanTotal(src, before + EntryPaths(e)[..j])
  }

  lemma ScanStart(src: Source, before: seq<Path>, e: WalkEntry)
    ensures Scanned(src, before, e, 0, ScanTotal(src, before))
  {
    assert before + EntryPaths(e)[..0] == before;
  }

  /** The pre-scan total grows by the scan size of each next file of the directory. */
  lemma ScanStep(src: Source, before: seq<Path>, e: WalkEntry, j: nat, t: nat, total: nat)
    requires j < |e.files| && Scanned(src, before, e, j, t)
    requires total == t + ScanSize(src, e.dir + [e.files[j]])
    ensures Scanned(src, before, e, j + 1, total)
  {
    EntryPathsSnoc(before, e, j);
    ScanTotalSnoc(src, before + EntryPaths(e)[..j], e.dir + [e.files[j]]);
  }

  lemma ScanEnd(src: Source, before: seq<Path>, e: WalkEntry, total: nat)
    requires Scanned(src, before, e, |e.files|, total)
    ensures total == ScanTotal(src, before + EntryPaths(e))
  {
    assert EntryPaths(e)[..|e.files|] == EntryPaths(e);
  }

  /** One iteration of the copy phase's file loop: skip test, chunked copy, error handling. */
  method CopyFile(src: Source, faults: map<Path, Fault>, p: Path, dst: Volume, bar: ProgressBar)
    requires bar.Valid()
    modifies dst, bar
    ensures bar.Valid()
    ensures dst.files == FileStep(src, faults, p, old(dst.files)).files
    ensures bar.updates == old(bar.updates) + FileStep(src, faults, p, old(dst.files)).updates
    ensures dst.dirs == old(dst.dirs)
  {
    if p in dst.files && p in src.contents && |src.contents[p]| == |dst.files[p]| {
      bar.Update(|src.contents[p]|);
      return;
    }
    if p !in src.contents {
      // opening the source raises, and so does sizing it in the handler
      return;
    }
    var data := src.contents[p];
    if p in faults && faults[p].BeforeWrite? {
      bar.Update(|data|);
      return;
    }
    var failAt := if p in faults then Some(faults[p].chunks) else None;
    var writeFailed := WriteChunks(p, data, failAt, dst, bar);
    ChunkSizesSpec(|data|);
    assert data[..|data|] == data;
    // `shutil.copystat` raises when the oracle's count is at or past the last chunk
    var statFailed := !writeFailed && p in faults;
    if writeFailed || statFailed {
      bar.Update(|data|);
    }
  }

  /**
   * `open(dest, 'wb')` and the `while True` loop: read up to 64 KiB, stop on
   * an empty chunk, write it, update the bar. `failAt` is the number of
   * chunks after which a write raises, if one does.
   */
  method WriteChunks(p: Path, data: Bytes, failAt: Option<nat>, dst: Volume, bar: ProgressBar) returns (failed: bool)
    requires bar.Valid()
    modifies dst, bar
    ensures var cs := ChunkSizes(|data|);
      failed <==> failAt.Some? && failAt.value < |cs|
    ensures var cs := ChunkSizes(|data|);
      var done := if failAt.Some? then Take(failAt.value, cs) else cs;
      && Sum(done) <= |data|
      && dst.files == old(dst.files)[p := data[..Sum(done)]]
      && bar.Valid() && bar.updates == old(bar.updates) + done
    ensures dst.dirs == old(dst.dirs)
  {
    dst.Create(p);
    ghost var files0 := old(dst.files);
    ghost var updates0 := bar.updates;
    failed := false;
    var pos := 0;
    var k := 0;
    ghost var written: seq<nat> := [];
    while true
      invariant Chunked(|data|, pos, written) && k == |written|
      invariant p in dst.files && dst.files == files0[p := data[..pos]]
      invariant dst.dirs == old(dst.dirs)
      invariant bar.Valid() && bar.updates == updates0 + written
      invariant failAt.Some? ==> failAt.value >= k
      decreases |data| - pos
    {
      var end := if |data| - pos < ChunkSize then |data| else pos + ChunkSize;
      var chunk := data[pos..end];
      if chunk == [] {
        break;
      }
      if failAt.Some? && failAt.value == k {
        failed := true;
        break;
      }
      ChunkStep(data, pos, end, written);
      WriteChunk(p, data, pos, end, files0, dst, bar);
      written := written + [end - pos];
      pos := end;
      k := k + 1;
    }
    LoopExit(|data|, pos, written, failAt, failed);
  }

  /**
   * The chunk loop's bookkeeping: `written` are the sizes of the chunks
   * written so far, the first of those the whole file splits into, and
   * they cover the file up to `pos`.
   */
  ghost predicate Chunked(len: nat, pos: nat, written: seq<nat>) {
    pos <= len && written + ChunkSizes(len - pos) == ChunkSizes(len) && pos == Sum(written)
  }

  /** One round of the chunk loop: the chunk `data[pos..end]` is written and counted. */
  method WriteChunk(p: Path, data: Bytes, pos: nat, end: nat, ghost files0: map<Path, Bytes>,
                    dst: Volume, bar: ProgressBar)
    requires pos <= end <= |data|
    requires dst.files == files0[p := data[..pos]]
    requires bar.Valid()
    modifies dst, bar
    ensures dst.files == files0[p := data[..end]] && dst.dirs == old(dst.dirs)
    ensures bar.Valid() && bar.updates == old(bar.updates) + [end - pos]
  {
    assert data[..pos] + data[pos..end] == data[..end];
    Overwrite(files0, p, data[..pos], data[..end]);
    dst.Append(p, data[pos..end]);
    bar.Update(end - pos);
  }

  /** Where the chunk loop stops: the chunks it wrote are those the specification takes. */
  lemma LoopExit(len: nat, pos: nat, written: seq<nat>, failAt: Option<nat>, failed: bool)
    requires Chunked(len, pos, written)
    requires failed ==> failAt.Some? && failAt.value == |written| && pos < len
    requires !failed ==> pos == len
    requires failAt.Some? ==> failAt.value >= |written|
    ensures var cs := ChunkSizes(len);
      && (failed <==> failAt.Some? && failAt.value < |cs|)
      && written == if failAt.Some? then Take(failAt.value, cs) else cs
  {
    var cs := ChunkSizes(len);
    WrittenPrefix(written, ChunkSizes(len - pos), cs);
    if failed {
      assert ChunkSizes(len - pos) != [];
    } else {
      assert ChunkSizes(len - pos) == [];
      assert written == cs;
    }
  }

  /** One round of the chunk loop keeps the loop's bookkeeping. */
  lemma ChunkStep(data: Bytes, pos: nat, end: nat, written: seq<nat>)
    requires pos < |data| && Chunked(|data|, pos, written)
    requires end == if |data| - pos < ChunkSize then |data| else pos + ChunkSize
    ensures Chunked(|data|, end, written + [end - pos])
  {
    var rem := |data| - pos;
    assert ChunkSizes(rem) == [end - pos] + ChunkSizes(rem - (end - pos));
    SumAppend(written, [end - pos]);
    assert [end - pos][..0] == [];
  }

  lemma Overwrite(m: map<Path, Bytes>, p: Path, a: Bytes, b: Bytes)
    ensures m[p := a][p := b] == m[p := b]
  {
  }

  lemma WrittenPrefix(written: seq<nat>, rest: seq<nat>, all: seq<nat>)
    requires written + rest == all
    ensures written == all[..|written|]
  {
    assert (written + rest)[..|written|] == written;
  }

  /** The copy phase: every directory of the walk, then every file in it. */
  method CopyTree(src: Source, faults: map<Path, Fault>, walk: seq<WalkEntry>, dst: Volume, bar: ProgressBar)
    requires bar.Valid()
    modifies dst, bar
    ensures bar.Valid()
    ensures var eff := RunFiles(src, faults, Listing(walk), old(dst.files));
      dst.files == eff.files && bar.updates == old(bar.updates) + eff.updates
    ensures dst.dirs == old(dst.dirs) + Dirs(walk)
  {
    ghost var files0 := dst.files;
    ghost var updates0 := bar.updates;
    ghost var dirs0 := dst.dirs;
    var i := 0;
    while i < |walk|
      invariant 0 <= i <= |walk|
      invariant bar.Valid()
      invariant Copied(src, faults, Listing(walk[..i]), files0, updates0, dst.files, bar.updates)
      invariant dst.dirs == dirs0 + Dirs(walk[..i])
    {
      var e := walk[i];
      ListingSnoc(walk, i);
      dst.MakeDirs(e.dir);
      ghost var before := Listing(walk[..i]);
      var j := 0;
      assert before + EntryPaths(e)[..0] == before;
      while j < |e.files|
        invariant 0 <= j <= |e.files|
        invariant bar.Valid()
        invariant Copied(src, faults, before + EntryPaths(e)[..j], files0, updates0, dst.files, bar.updates)
        invariant dst.dirs == dirs0 + Dirs(walk[..i + 1])
      {
        var p := e.dir + [e.files[j]];
        EntryPathsSnoc(before, e, j);
        ghost var ps := before + EntryPaths(e)[..j];
        ghost var mid := dst.files;
        ghost var midUpdates := bar.updates;
        CopyFile(src, faults, p, dst, bar);
        CopiedSnoc(src, faults, ps, p, files0, updates0, mid, midUpdates, dst.files, bar.updates);
        j := j + 1;
      }
      assert EntryPaths(e)[..j] == EntryPaths(e);
      i := i + 1;
    }
    assert walk[..i] == walk;
  }

  /** The destination files and the bar's updates are those of running the file loop over `ps`. */
  ghost predicate Copied(src: Source, faults: map<Path, Fault>, ps: seq<Path>, files0: map<Path, Bytes>,
                         updates0: seq<nat>, files: map<Path, Bytes>, updates: seq<nat>)
  {
    var eff := RunFiles(src, faults, ps, files0);
    files == eff.files && updates == updates0 + eff.updates
  }

  lemma CopiedSnoc(src: Source, faults: map<Path, Fault>, ps: seq<Path>, p: Path, files0: map<Path, Bytes>,
                   updates0: seq<nat>, mid: map<Path, Bytes>, midUpdates: seq<nat>,
                   files: map<Path, Bytes>, updates: seq<nat>)
    requires Copied(src, faults, ps, files0, updates0, mid, midUpdates)
    requires files == FileStep(src, faults, p, mid).files
    requires updates == midUpdates + FileStep(src, faults, p, mid).updates
    ensures Copied(src, faults, ps + [p], files0, updates0, files, updates)
  {
    RunFilesSnoc(src, faults, ps, p, files0);
  }

  /**
   * `tqdm_copy_recursive`: the pre-scan, a bar created with its total, and
   * the copy phase.
   */
  method CopyRecursive(src: Source, faults: map<Path, Fault>, walk: seq<WalkEntry>, dst: Volume)
    returns (bar: ProgressBar)
    modifies dst
    ensures fresh(bar) && bar.Valid()
    ensures bar.total == ScanTotal(src, Listing(walk))
    ensures var eff := RunFiles(src, faults, Listing(walk), old(dst.files));
      dst.files == eff.files && bar.updates == eff.updates && bar.n == Sum(eff.updates)
    ensures dst.dirs == old(dst.dirs) + Dirs(walk)
  {
    var total := PreScan(src, walk);
    bar := new ProgressBar(total);
    CopyTree(src, faults, walk, dst, bar);
  }

  // ---------------------------------------------------------------------
  // One file.
  // ---------------------------------------------------------------------

  /**
   * The three ways one file goes. A destination file of the source's size
   * is left as it is, whatever its bytes, and counted at that size. A
   * clean copy leaves the destination equal to the source and counts each
   * chunk. A failed copy is counted in full on top of the chunks already
   * counted. No other destination file changes.
   */
  lemma FileStepCases(src: Source, faults: map<Path, Fault>, p: Path, files: map<Path, Bytes>)
    ensures var fx := FileStep(src, faults, p, files);
      && (forall q :: q != p ==> (q in fx.files <==> q in files))
      && (forall q :: q != p && q in files ==> fx.files[q] == files[q])
      && (SameSize(src, files, p) ==> fx.files == files && fx.updates == [|files[p]|])
      && (p !in src.contents ==> fx.files == files && fx.updates == [])
      && (p in src.contents && !SameSize(src, files, p) && p !in faults ==>
            fx.files == files[p := src.contents[p]] && fx.updates == ChunkSizes(|src.contents[p]|) &&
            Sum(fx.updates) == |src.contents[p]|)
      && (p in src.contents && !SameSize(src, files, p) && p in faults ==>
            |fx.updates| >= 1 && fx.updates[|fx.updates| - 1] == |src.contents[p]|)
  {
    if p in src.contents {
      ChunkSizesSpec(|src.contents[p]|);
    }
  }

  /**
   * A write that fails after `k` chunks is counted twice over: the bytes
   * already counted chunk by chunk, then the whole file again; the
   * destination keeps the bytes written so far.
   */
  lemma FailureAfterChunksOvershoots(src: Source, faults: map<Path, Fault>, p: Path, files: map<Path, Bytes>)
    requires p in src.contents && !SameSize(src, files, p)
    requires p in faults && faults[p].AfterChunks?
    ensures var len := |src.contents[p]|;
      var k := faults[p].chunks;
      var written := if k * ChunkSize < len then k * ChunkSize else len;
      var fx := FileStep(src, faults, p, files);
      && Sum(fx.updates) == written + len
      && fx.files == files[p := src.contents[p][..written]]
      && (k >= 1 && len > 0 ==> Sum(fx.updates) > ScanSize(src, p))
  {
    var data := src.contents[p];
    var len := |data|;
    var k := faults[p].chunks;
    var done := Take(k, ChunkSizes(len));
    TakeChunksSum(len, k);
    assert FileStep(src, faults, p, files) == FileEffect(files[p := data[..Sum(done)]], done + [len]);
    SumAppend(done, [len]);
    assert [len][..0] == [];
  }

  /** A destination that cannot be opened leaves the file as it was and counts it once. */
  lemma FailureBeforeWriteCounted(src: Source, faults: map<Path, Fault>, p: Path, files: map<Path, Bytes>)
    requires p in src.contents && !SameSize(src, files, p)
    requires p in faults && faults[p].BeforeWrite?
    ensures var fx := FileStep(src, faults, p, files);
      fx.files == files && Sum(fx.updates) == |src.contents[p]|
  {
    assert [|src.contents[p]|][..0] == [];
  }

  /** Progress for one file: at least what the pre-scan counted for it, at most twice its size. */
  lemma FileStepBounds(src: Source, faults: map<Path, Fault>, p: Path, files: map<Path, Bytes>)
    ensures var fx := FileStep(src, faults, p, files);
      && ScanSize(src, p) <= Sum(fx.updates)
      && Sum(fx.updates) <= 2 * (if p in src.contents then |src.contents[p]| else 0)
      && (p !in faults && p !in src.links ==> Sum(fx.updates) == ScanSize(src, p))
  {
    if p in src.contents {
      var len := |src.contents[p]|;
      ChunkSizesSpec(len);
      assert [len][..0] == [];
      if p in faults && faults[p].AfterChunks? && !SameSize(src, files, p) {
        FailureAfterChunksOvershoots(src, faults, p, files);
      }
    }
  }

  /** A symbolic link is copied and counted although the pre-scan left it out of the total. */
  lemma LinkCountedBeyondTotal(src: Source, faults: map<Path, Fault>, p: Path, files: map<Path, Bytes>)
    requires p in src.links && p in src.contents && p !in faults && |src.contents[p]| > 0
    ensures ScanSize(src, p) == 0 && Sum(FileStep(src, faults, p, files).updates) == |src.contents[p]|
  {
    ChunkSizesSpec(|src.contents[p]|);
    if SameSize(src, files, p) {
      assert [|src.contents[p]|][..0] == [];
    }
  }

  // ---------------------------------------------------------------------
  // The whole copy phase.
  // ---------------------------------------------------------------------

  /** No listed file has a failure in the oracle and none is a symbolic link. */
  predicate Clean(src: Source, faults: map<Path, Fault>, ps: seq<Path>) {
    forall k :: 0 <= k < |ps| ==> ps[k] !in faults && ps[k] !in src.links
  }

  /** The bytes of the listed files that can be read, symbolic links included. */
  function ReadableTotal(src: Source, ps: seq<Path>): nat
    decreases |ps|
  {
    if ps == [] then 0
    else ReadableTotal(src, ps[..|ps| - 1]) + (if ps[|ps| - 1] in src.contents then |src.contents[ps[|ps| - 1]]| else 0)
  }

  /** The counter ends at or above the pre-scan total, and at most twice the bytes readable. */
  lemma {:induction false} ProgressCoversTotal(src: Source, faults: map<Path, Fault>, ps: seq<Path>, files: map<Path, Bytes>)
    ensures ScanTotal(src, ps) <= Sum(RunFiles(src, faults, ps, files).updates)
    ensures Sum(RunFiles(src, faults, ps, files).updates) <= 2 * ReadableTotal(src, ps)
    decreases |ps|
  {
    if ps != [] {
      var init := ps[..|ps| - 1];
      var before := RunFiles(src, faults, init, files);
      ProgressCoversTotal(src, faults, init, files);
      FileStepBounds(src, faults, ps[|ps| - 1], before.files);
      SumAppend(before.updates, FileStep(src, faults, ps[|ps| - 1], before.files).updates);
    }
  }

  /** Without failures and symbolic links the counter ends exactly at the pre-scan total. */
  lemma {:induction false} CleanRunReachesTotal(src: Source, faults: map<Path, Fault>, ps: seq<Path>, files: map<Path, Bytes>)
    requires Clean(src, faults, ps)
    ensures Sum(RunFiles(src, faults, ps, files).updates) == ScanTotal(src, ps)
    decreases |ps|
  {
    if ps != [] {
      var init := ps[..|ps| - 1];
      var before := RunFiles(src, faults, init, files);
      assert Clean(src, faults, init) by {
        assert forall k :: 0 <= k < |init| ==> init[k] == ps[k];
      }
      CleanRunReachesTotal(src, faults, init, files);
      FileStepBounds(src, faults, ps[|ps| - 1], before.files);
      SumAppend(before.updates, FileStep(src, faults, ps[|ps| - 1], before.files).updates);
    }
  }

  /** The updates made so far are a prefix of the final ones: the counter never goes back. */
  lemma {:induction false} ProgressNeverDecreases(src: Source, faults: map<Path, Fault>, ps: seq<Path>, files: map<Path, Bytes>, i: nat)
    requires i <= |ps|
    ensures var part := RunFiles(src, faults, ps[..i], files).updates;
      var all := RunFiles(src, faults, ps, files).updates;
      part <= all && Sum(part) <= Sum(all)
    decreases |ps|
  {
    if i < |ps| {
      var init := ps[..|ps| - 1];
      assert init[..i] == ps[..i];
      ProgressNeverDecreases(src, faults, init, files, i);
      var before := RunFiles(src, faults, init, files);
      var step := FileStep(src, faults, ps[|ps| - 1], before.files);
      SumAppend(before.updates, step.updates);
    } else {
      assert ps[..i] == ps;
    }
  }

  /** Files that are not listed are neither created nor changed. */
  lemma {:induction false} UnlistedUntouched(src: Source, faults: map<Path, Fault>, ps: seq<Path>, files: map<Path, Bytes>, q: Path)
    requires forall k :: 0 <= k < |ps| ==> ps[k] != q
    ensures var out := RunFiles(src, faults, ps, files).files;
      (q in out <==> q in files) && (q in files ==> out[q] == files[q])
    decreases |ps|
  {
    if ps != [] {
      var init := ps[..|ps| - 1];
      assert forall k :: 0 <= k < |init| ==> init[k] == ps[k];
      UnlistedUntouched(src, faults, init, files, q);
      FileStepCases(src, faults, ps[|ps| - 1], RunFiles(src, faults, init, files).files);
    }
  }

  /** After a run without failures, every listed readable file is at the destination with its size. */
  lemma {:induction false} CleanRunSizes(src: Source, faults: map<Path, Fault>, ps: seq<Path>, files: map<Path, Bytes>)
    requires forall k :: 0 <= k < |ps| ==> ps[k] !in faults
    ensures var out := RunFiles(src, faults, ps, files).files;
      forall k :: 0 <= k < |ps| && ps[k] in src.contents ==> SameSize(src, out, ps[k])
    decreases |ps|
  {
    if ps != [] {
      var init := ps[..|ps| - 1];
      var last := ps[|ps| - 1];
      assert forall k :: 0 <= k < |init| ==> init[k] == ps[k];
      CleanRunSizes(src, faults, init, files);
      var mid := RunFiles(src, faults, init, files).files;
      FileStepCases(src, faults, last, mid);
      var out := RunFiles(src, faults, ps, files).files;
      forall k | 0 <= k < |ps| && ps[k] in src.contents
        ensures SameSize(src, out, ps[k])
      {
        if ps[k] != last {
          assert SameSize(src, mid, init[k]);
        }
      }
    }
  }

  /** Where every listed readable file already has its size at the destination, the run changes nothing. */
  lemma {:induction false} SameSizesUnchanged(src: Source, faults: map<Path, Fault>, ps: seq<Path>, files: map<Path, Bytes>)
    requires forall k :: 0 <= k < |ps| && ps[k] in src.contents ==> SameSize(src, files, ps[k])
    ensures RunFiles(src, faults, ps, files).files == files
    decreases |ps|
  {
    if ps != [] {
      var init := ps[..|ps| - 1];
      assert forall k :: 0 <= k < |init| ==> init[k] == ps[k];
      SameSizesUnchanged(src, faults, init, files);
      FileStepCases(src, faults, ps[|ps| - 1], files);
    }
  }

  /**
   * Running the copy again after a run without failures skips every file:
   * the destination does not change, and without symbolic links the
   * counter again reaches exactly the total.
   */
  lemma SecondRunSkipsAll(src: Source, faults: map<Path, Fault>, ps: seq<Path>, files: map<Path, Bytes>)
    requires forall k :: 0 <= k < |ps| ==> ps[k] !in faults
    ensures var first := RunFiles(src, faults, ps, files);
      var second := RunFiles(src, faults, ps, first.files);
      && second.files == first.files
      && (Clean(src, faults, ps) ==> Sum(second.updates) == ScanTotal(src, ps))
  {
    var first := RunFiles(src, faults, ps, files);
    CleanRunSizes(src, faults, ps, files);
    SameSizesUnchanged(src, faults, ps, first.files);
    if Clean(src, faults, ps) {
      CleanRunReachesTotal(src, faults, ps, first.files);
    }
  }

  /**
   * Copying without failures onto a destination holding none of the listed
   * files gives each listed readable file the source's bytes.
   */
  lemma {:induction false} CopyOntoEmpty(src: Source, faults: map<Path, Fault>, ps: seq<Path>, files: map<Path, Bytes>)
    requires forall k :: 0 <= k < |ps| ==> ps[k] !in faults && ps[k] !in files
    ensures var out := RunFiles(src, faults, ps, files).files;
      forall k :: 0 <= k < |ps| && ps[k] in src.contents ==> ps[k] in out && out[ps[k]] == src.contents[ps[k]]
    decreases |ps|
  {
    if ps != [] {
      var init := ps[..|ps| - 1];
      var last := ps[|ps| - 1];
      assert forall k :: 0 <= k < |init| ==> init[k] == ps[k];
      CopyOntoEmpty(src, faults, init, files);
      var mid := RunFiles(src, faults, init, files).files;
      FileStepCases(src, faults, last, mid);
      var out := RunFiles(src, faults, ps, files).files;
      forall k | 0 <= k < |ps| && ps[k] in src.contents
        ensures ps[k] in out && out[ps[k]] == src.contents[ps[k]]
      {
        if ps[k] != last {
          assert init[k] == ps[k];
        } else if last in mid {
          // `last` was listed before, and copied then
          CreatedOnlyListed(src, faults, init, files, last);
          var k0 :| 0 <= k0 < |init| && init[k0] == last;
        }
      }
    }
  }

  /** A file the run creates is a listed readable file. */
  lemma {:induction false} CreatedOnlyListed(src: Source, faults: map<Path, Fault>, ps: seq<Path>, files: map<Path, Bytes>, q: Path)
    requires q in RunFiles(src, faults, ps, files).files && q !in files
    ensures q in src.contents && exists k :: 0 <= k < |ps| && ps[k] == q
    decreases |ps|
  {
    var init := ps[..|ps| - 1];
    var mid := RunFiles(src, faults, init, files).files;
    FileStepCases(src, faults, ps[|ps| - 1], mid);
    if q in mid {
      CreatedOnlyListed(src, faults, init, files, q);
      var k :| 0 <= k < |init| && init[k] == q;
      assert ps[k] == q;
    } else {
      assert ps[|ps| - 1] == q;
    }
  }

  // ---------------------------------------------------------------------
  // The walk.
  // ---------------------------------------------------------------------

  /** The destination directories created are exactly the directories the walk visits. */
  lemma {:induction false} MirrorsDirectories(walk: seq<WalkEntry>)
    ensures forall i :: 0 <= i < |walk| ==> walk[i].dir in Dirs(walk)
    ensures forall d :: d in Dirs(walk) ==> exists i :: 0 <= i < |walk| && walk[i].dir == d
    decreases |walk|
  {
    if walk != [] {
      var init := walk[..|walk| - 1];
      MirrorsDirectories(init);
      assert forall i :: 0 <= i < |init| ==> init[i] == walk[i];
    }
  }

  /** The files the copy goes through are exactly the walk's files, each under its directory. */
  lemma {:induction false} ListingOfWalk(walk: seq<WalkEntry>)
    ensures forall i, j :: 0 <= i < |walk| && 0 <= j < |walk[i].files| ==>
      walk[i].dir + [walk[i].files[j]] in Listing(walk)
    ensures forall q :: q in Listing(walk) ==>
      exists i, j :: 0 <= i < |walk| && 0 <= j < |walk[i].files| && q == walk[i].dir + [walk[i].files[j]]
    decreases |walk|
  {
    if walk != [] {
      var init := walk[..|walk| - 1];
      var e := walk[|walk| - 1];
      ListingOfWalk(init);
      assert forall i :: 0 <= i < |init| ==> init[i] == walk[i];
      assert forall j :: 0 <= j < |e.files| ==> EntryPaths(e)[j] == e.dir + [e.files[j]];
      forall q | q in Listing(walk)
        ensures exists i, j :: 0 <= i < |walk| && 0 <= j < |walk[i].files| && q == walk[i].dir + [walk[i].files[j]]
      {
        if q !in Listing(init) {
          var j :| 0 <= j < |EntryPaths(e)| && EntryPaths(e)[j] == q;
          assert q == walk[|walk| - 1].dir + [walk[|walk| - 1].files[j]];
        }
      }
    }
  }

  /**
   * A source with `a.txt` of 100 bytes and `sub\b.txt` of 200 bytes,
   * copied onto an empty volume: the total is 300, the counter ends at 300,
   * and the volume ends with both files and both directories.
   */
  lemma TwoFileExample()
    ensures var a: Bytes := seq(100, _ => 0);
      var b: Bytes := seq(200, _ => 1);
      var src := Source(map[["a.txt"] := a, ["sub", "b.txt"] := b], {});
      var walk := [WalkEntry([], ["a.txt"]), WalkEntry(["sub"], ["b.txt"])];
      var eff := RunFiles(src, map[], Listing(walk), map[]);
      && ScanTotal(src, Listing(walk)) == 300
      && Sum(eff.updates) == 300
      && eff.files == src.contents
      && Dirs(walk) == {[], ["sub"]}
  {
    var a: Bytes := seq(100, _ => 0);
    var b: Bytes := seq(200, _ => 1);
    var src := Source(map[["a.txt"] := a, ["sub", "b.txt"] := b], {});
    var walk := [WalkEntry([], ["a.txt"]), WalkEntry(["sub"], ["b.txt"])];
    var pa: Path := ["a.txt"];
    var pb: Path := ["sub", "b.txt"];
    assert pa != pb;
    assert walk[..1] == [walk[0]];
    assert walk[..1][..0] == [];
    assert walk[0].dir + [walk[0].files[0]] == pa;
    assert walk[1].dir + [walk[1].files[0]] == pb;
    assert |EntryPaths(walk[0])| == 1 && EntryPaths(walk[0])[0] == pa;
    assert |EntryPaths(walk[1])| == 1 && EntryPaths(walk[1])[0] == pb;
    assert EntryPaths(walk[0]) == [pa];
    assert EntryPaths(walk[1]) == [pb];
    assert Listing(walk[..1]) == [pa];
    assert Listing(walk) == [pa, pb];
    assert [pa, pb][..1] == [pa];
    ScanTotalSnoc(src, [pa], pb);
    ScanTotalSnoc(src, [], pa);
    assert ScanTotal(src, [pa, pb]) == 300;
    CleanRunReachesTotal(src, map[], [pa, pb], map[]);
    RunFilesSnoc(src, map[], [], pa, map[]);
    RunFilesSnoc(src, map[], [pa], pb, map[pa := a]);
    assert RunFiles(src, map[], [pa], map[]).files == map[pa := a];
    assert map[pa := a][pb := b] == src.contents;
  }
}
