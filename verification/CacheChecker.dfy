/** Checking the cache of a multi-file torrent against its hashes, and repairing the chunk index
    (apps/ktcachecheck/multicachechecker.cpp, cachechecker.cpp). */
module CacheChecker {
  import opened Bytes
  import opened Keys

  /** What the cache directory holds for a file of the torrent. */
  datatype Disk = Missing | Stored(bytes: seq<Byte>)

  datatype TorrentFile = TorrentFile(size: nat, disk: Disk) {
    /** A stored file has the length the torrent gives. */
    ghost predicate Valid() {
      disk.Stored? ==> |disk.bytes| == size
    }

    ghost function Data(): (d: seq<Byte>)
      ensures Valid() ==> |d| == size
    {
      if disk.Stored? then disk.bytes else seq(size, _ => 0)
    }
  }

  datatype Torrent = Torrent(files: seq<TorrentFile>, chunkSize: nat, hashes: seq<Key>) {
    ghost predicate Valid() {
      && chunkSize > 0
      && (forall i :: 0 <= i < |files| ==> files[i].Valid())
      && |hashes| == (Total() + chunkSize - 1) / chunkSize
    }

    function Total(): nat { Start(files, |files|) }
  }

  /** Offset of file `k` in the concatenation of all files. */
  function Start(files: seq<TorrentFile>, k: nat): nat
    requires k <= |files|
  {
    if k == 0 then 0 else Start(files, k - 1) + files[k - 1].size
  }

  /** The concatenation of the first `k` files. */
  ghost function Joined(files: seq<TorrentFile>, k: nat): seq<Byte>
    requires k <= |files|
  {
    if k == 0 then [] else Joined(files, k - 1) + files[k - 1].Data()
  }

  ghost function AllBytes(t: Torrent): seq<Byte> { Joined(t.files, |t.files|) }

  ghost predicate FilesValid(files: seq<TorrentFile>) {
    forall i :: 0 <= i < |files| ==> files[i].Valid()
  }

  lemma {:induction false} JoinedLength(files: seq<TorrentFile>, k: nat)
    requires k <= |files| && FilesValid(files)
    ensures |Joined(files, k)| == Start(files, k)
  {
    if k > 0 { JoinedLength(files, k - 1); }
  }

  lemma {:induction false} StartMonotone(files: seq<TorrentFile>, j: nat, k: nat)
    requires j <= k <= |files|
    ensures Start(files, j) <= Start(files, k)
  {
    if j < k { StartMonotone(files, j, k - 1); }
  }

  lemma {:induction false} JoinedPrefix(files: seq<TorrentFile>, j: nat, k: nat)
    requires j <= k <= |files|
    ensures Joined(files, j) <= Joined(files, k)
  {
    if j < k { JoinedPrefix(files, j, k - 1); }
  }

  lemma SliceOfPrefix(all: seq<Byte>, p: seq<Byte>, d: seq<Byte>, from: nat, len: nat)
    requires p + d <= all && from + len <= |d|
    ensures all[|p| + from..|p| + from + len] == d[from..from + len]
  {
    forall i | from <= i < from + len ensures all[|p| + i] == d[i] {
      assert all[|p| + i] == (p + d)[|p| + i];
    }
  }

  /** Bytes of one file are the bytes at its place in the concatenation. */
  lemma FileInJoined(files: seq<TorrentFile>, k: nat, from: nat, len: nat)
    requires k < |files| && FilesValid(files) && from + len <= files[k].size
    ensures Start(files, k) + from + len <= Start(files, |files|) == |Joined(files, |files|)|
    ensures Joined(files, |files|)[Start(files, k) + from..Start(files, k) + from + len]
         == files[k].Data()[from..from + len]
  {
    JoinedLength(files, k);
    JoinedLength(files, |files|);
    StartMonotone(files, k + 1, |files|);
    JoinedPrefix(files, k + 1, |files|);
    SliceOfPrefix(Joined(files, |files|), Joined(files, k), files[k].Data(), from, len);
  }

  /** Where chunk `i` begins; for the number of chunks, the end. */
  function Begin(t: Torrent, i: nat): nat {
    if i == 0 then 0
    else if Begin(t, i - 1) + t.chunkSize <= t.Total() then Begin(t, i - 1) + t.chunkSize else t.Total()
  }

  lemma {:induction false} BeginIs(t: Torrent, i: nat)
    ensures Begin(t, i) == if i * t.chunkSize <= t.Total() then i * t.chunkSize else t.Total()
  {
    if i > 0 {
      BeginIs(t, i - 1);
      assert i * t.chunkSize == (i - 1) * t.chunkSize + t.chunkSize;
    }
  }

  /** The simple definition: slice the concatenation of all files. */
  ghost function Chunk(t: Torrent, i: nat): seq<Byte>
    requires t.Valid() && i < |t.hashes|
  {
    ChunkBounds(t, i);
    AllBytes(t)[i * t.chunkSize..Begin(t, i + 1)]
  }

  lemma DivBounds(total: nat, c: nat, n: nat)
    requires c > 0 && n == (total + c - 1) / c
    ensures n * c >= total
    ensures n > 0 ==> (n - 1) * c < total
  {
  }

  lemma ChunkBounds(t: Torrent, i: nat)
    requires t.Valid() && i < |t.hashes|
    ensures i * t.chunkSize < Begin(t, i + 1) <= t.Total() == |AllBytes(t)|
    ensures Begin(t, i + 1) - i * t.chunkSize ==
            if i == |t.hashes| - 1 && t.Total() % t.chunkSize != 0 then t.Total() % t.chunkSize else t.chunkSize
    ensures Begin(t, i) == i * t.chunkSize
  {
    BeginIs(t, i);
    BeginIs(t, i + 1);
    JoinedLength(t.files, |t.files|);
    var n, c, total := |t.hashes|, t.chunkSize, t.Total();
    DivBounds(total, c, n);
    MulMonotone(i, n - 1, c);
    if i < n - 1 {
      MulMonotone(i + 1, n - 1, c);
    } else {
      LastChunk(total, c, n);
    }
  }

  lemma MulMonotone(a: nat, b: nat, c: nat)
    requires a <= b
    ensures a * c <= b * c
    ensures (a + 1) * c == a * c + c
  {
  }

  lemma LastChunk(total: nat, c: nat, n: nat)
    requires c > 0 && n > 0 && (n - 1) * c < total <= n * c
    ensures n * c == (n - 1) * c + c
    ensures if total % c == 0 then total == n * c else total % c == total - (n - 1) * c
  {
    var r := total - (n - 1) * c;
    assert n * c == (n - 1) * c + c;
    if r == c {
      assert total == n * c + 0;
      ModUnique(total, c, n, 0);
    } else {
      ModUnique(total, c, n - 1, r);
    }
  }

  // ---- what a check finds ----

  /** The chunks whose data on disk has the hash the torrent lists. */
  ghost function GoodChunks(t: Torrent, sha: Hash): set<nat>
    requires t.Valid()
  {
    set i: nat | i < |t.hashes| && sha(Chunk(t, i)) == t.hashes[i]
  }

  /** Of the first `n` chunks, those that are (or are not) in the index and good (or not). */
  function Class(good: set<nat>, d: set<nat>, n: nat, inIndex: bool, isGood: bool): set<nat> {
    if n == 0 then {} else
      Class(good, d, n - 1, inIndex, isGood) +
      if (n - 1 in d) == inIndex && (n - 1 in good) == isGood then {n - 1} else {}
  }

  lemma {:induction false} ClassMember(good: set<nat>, d: set<nat>, n: nat, inIndex: bool, isGood: bool, i: nat)
    ensures i in Class(good, d, n, inIndex, isGood) <==> i < n && (i in d) == inIndex && (i in good) == isGood
  {
    if n > 0 { ClassMember(good, d, n - 1, inIndex, isGood, i); }
  }

  function Ok(good: set<nat>, d: set<nat>, n: nat): set<nat> { Class(good, d, n, true, true) }

  function Failed(good: set<nat>, d: set<nat>, n: nat): set<nat> { Class(good, d, n, true, false) }

  function Extra(good: set<nat>, d: set<nat>, n: nat): set<nat> { Class(good, d, n, false, true) }

  function NotDownloaded(good: set<nat>, d: set<nat>, n: nat): set<nat> { Class(good, d, n, false, false) }

  /** The summary printed at the end. */
  datatype Counts = Counts(ok: nat, failed: nat, notDownloaded: nat, extra: nat)

  function Count(c: Counts, inIndex: bool, isGood: bool): Counts {
    if isGood then (if inIndex then c.(ok := c.ok + 1) else c.(extra := c.extra + 1))
    else if inIndex then c.(failed := c.failed + 1) else c.(notDownloaded := c.notDownloaded + 1)
  }

  /** The counters after `n` chunks. */
  function Tally(good: set<nat>, d: set<nat>, n: nat): Counts {
    if n == 0 then Counts(0, 0, 0, 0) else Count(Tally(good, d, n - 1), n - 1 in d, n - 1 in good)
  }

  function Only(i: nat, b: bool): set<nat> { if b then {i} else {} }

  /** The counters are the sizes of the four classes, which share out the chunks. */
  ghost predicate Tallied(good: set<nat>, d: set<nat>, n: nat, c: Counts) {
    && c.ok == |Ok(good, d, n)| && c.failed == |Failed(good, d, n)|
    && c.extra == |Extra(good, d, n)| && c.notDownloaded == |NotDownloaded(good, d, n)|
    && c.ok + c.failed + c.notDownloaded + c.extra == n
  }

  /** What a check over the first `n` chunks adds to the two sets. */
  ghost predicate Recorded(good: set<nat>, d: set<nat>, n: nat, f0: set<nat>, e0: set<nat>, f: set<nat>, e: set<nat>) {
    f == f0 + Failed(good, d, n) && e == e0 + Extra(good, d, n)
  }

  /** A file that has to be opened is not there; files starting at the very end are never opened. */
  ghost predicate NeedsMissing(t: Torrent) {
    exists k :: 0 <= k < |t.files| && Start(t.files, k) < t.Total() && t.files[k].disk.Missing?
  }

  /** The index after `fixIndex`. */
  function Repaired(downloaded: set<nat>, failed: set<nat>, extra: set<nat>): set<nat> {
    downloaded - failed + extra
  }

  /** After a check and a repair the index lists, of the torrent's chunks, exactly the good ones, and a
      second check finds nothing to complain about. */
  lemma RepairIsFinal(t: Torrent, sha: Hash, d: set<nat>)
    requires t.Valid()
    ensures var n, good := |t.hashes|, GoodChunks(t, sha);
            var fixed := Repaired(d, Failed(good, d, n), Extra(good, d, n));
            && (forall i: nat :: i < n ==> (i in fixed <==> sha(Chunk(t, i)) == t.hashes[i]))
            && (forall i: nat :: i >= n ==> (i in fixed <==> i in d))
            && Failed(good, fixed, n) == {} && Extra(good, fixed, n) == {}
  {
    var n, good := |t.hashes|, GoodChunks(t, sha);
    var failed, extra := Failed(good, d, n), Extra(good, d, n);
    var fixed := Repaired(d, failed, extra);
    forall i: nat
      ensures i in fixed <==> if i < n then i in good else i in d
      ensures i !in Failed(good, fixed, n) && i !in Extra(good, fixed, n)
    {
      ClassMember(good, d, n, true, false, i);
      ClassMember(good, d, n, false, true, i);
      ClassMember(good, fixed, n, true, false, i);
      ClassMember(good, fixed, n, false, true, i);
    }
  }

  class MultiCacheChecker {
    const tor: Torrent
    const sha: Hash
    var downloadedChunks: set<nat>
    var failedChunks: set<nat>
    var extraChunks: set<nat>

    constructor (tor: Torrent, sha: Hash)
      ensures this.tor == tor && this.sha == sha
      ensures downloadedChunks == {} && failedChunks == {} && extraChunks == {}
    {
      this.tor, this.sha := tor, sha;
      downloadedChunks, failedChunks, extraChunks := {}, {}, {};
    }

    /** `fptr.seek(off)`, `fptr.read(buf + done, len)` on the current file. */
    method ReadFile(buf: array<Byte>, ghost all: seq<Byte>, base: nat, done: nat, file: nat, off: nat, len: nat)
      requires FilesValid(tor.files) && all == AllBytes(tor)
      requires done + len <= buf.Length && CursorAt(tor, base + done, file, off)
      requires file < |tor.files| && tor.files[file].disk.Stored? && off + len <= tor.files[file].size
      requires base + done <= |all| && buf[..done] == all[base..base + done]
      modifies buf
      ensures base + done + len <= |all| && buf[..done + len] == all[base..base + done + len]
    {
      FileInJoined(tor.files, file, off, len);
      ReadAt(buf, done, tor.files[file].disk.bytes[off..off + len]);
      assert all[base..base + done + len] == all[base..base + done] + all[base + done..base + done + len];
    }

    /** The inner loop: read `size` bytes from byte `base` of the torrent on, the file cursor carried
        along. */
    method ReadRange(buf: array<Byte>, ghost all: seq<Byte>, base: nat, size: nat, file0: nat, off0: nat)
      returns (ok: bool, file: nat, off: nat)
      requires FilesValid(tor.files) && all == AllBytes(tor)
      requires size <= buf.Length && base + size <= tor.Total() == |all|
      requires CursorAt(tor, base, file0, off0)
      modifies buf
      ensures ok ==> buf[..size] == all[base..base + size] && CursorAt(tor, base + size, file, off)
      ensures !ok ==> NeedsMissing(tor)
    {
      file, off := file0, off0;
      var done: nat := 0;
      while done < size
        invariant done <= size && CursorAt(tor, base + done, file, off)
        invariant buf[..done] == all[base..base + done]
        decreases |tor.files| - file, size - done
      {
        ok, done, file, off := ReadOn(buf, all, base, size, done, file, off);
        if !ok { return; }
      }
      ok := true;
    }

    /** Its body: read up to the end of the chunk or of the current file. */
    method ReadOn(buf: array<Byte>, ghost all: seq<Byte>, base: nat, size: nat, done0: nat, file0: nat, off0: nat)
      returns (ok: bool, done: nat, file: nat, off: nat)
      requires FilesValid(tor.files) && all == AllBytes(tor)
      requires done0 < size <= buf.Length && base + size <= tor.Total() == |all|
      requires CursorAt(tor, base + done0, file0, off0) && buf[..done0] == all[base..base + done0]
      modifies buf
      ensures ok ==> done <= size && CursorAt(tor, base + done, file, off) && buf[..done] == all[base..base + done]
      ensures ok ==> file == file0 + 1 || (file == file0 && done > done0)
      ensures !ok ==> NeedsMissing(tor)
    {
      done, file, off := done0, file0, off0;
      FileInRange(tor, base + done, file, off);
      if tor.files[file].disk.Missing? {
        MissingNeeded(tor, file);
        return false, done, file, off;
      }
      var toRead := size - done;
      if toRead <= tor.files[file].size - off {
        ReadFile(buf, all, base, done, file, off, toRead);
        done, off := done + toRead, off + toRead;
      } else {
        toRead := tor.files[file].size - off;
        ReadFile(buf, all, base, done, file, off, toRead);
        done := done + toRead;
        NextFile(tor, base + done, file, off + toRead);
        file, off := file + 1, 0;
      }
      ok := true;
    }

    /** Read chunk `i` into `buf`. */
    method ReadChunk(i: nat, buf: array<Byte>, file0: nat, off0: nat) returns (ok: bool, size: nat, file: nat, off: nat)
      requires tor.Valid() && i < |tor.hashes| && buf.Length == tor.chunkSize
      requires CursorAt(tor, Begin(tor, i), file0, off0)
      modifies buf
      ensures ok ==> size <= buf.Length && buf[..size] == Chunk(tor, i) && CursorAt(tor, Begin(tor, i + 1), file, off)
      ensures !ok ==> NeedsMissing(tor)
    {
      ChunkBounds(tor, i);
      size := tor.chunkSize;
      if i == |tor.hashes| - 1 && tor.Total() % tor.chunkSize != 0 { size := tor.Total() % tor.chunkSize; }
      var base := i * tor.chunkSize;
      assert size == Begin(tor, i + 1) - base;
      ok, file, off := ReadRange(buf, AllBytes(tor), base, size, file0, off0);
    }

    /** `loadIndex`: the end of the file is noticed only by a read that fails, and what the header holds then
        (`junk`) is taken for one more chunk. */
    method LoadIndex(index: seq<nat>, junk: nat)
      modifies this`downloadedChunks
      ensures downloadedChunks == old(downloadedChunks) + Loaded(index, junk)
    {
      if index == [] { return; }
      var pos, eof := 0, false;
      while !eof
        invariant pos <= |index|
        invariant downloadedChunks == old(downloadedChunks) + Elements(index[..pos]) + if eof then {junk} else {}
        invariant eof ==> pos == |index|
        decreases !eof, |index| - pos
      {
        var hdr := junk;
        if pos < |index| {
          hdr := index[pos];
          assert index[..pos + 1] == index[..pos] + [index[pos]];
          pos := pos + 1;
        } else {
          eof := true;
        }
        downloadedChunks := downloadedChunks + {hdr};
      }
      assert index[..pos] == index;
    }

    /** The whole check; it is abandoned at the first file that cannot be opened. */
    method Check(index: seq<nat>, junk: nat) returns (ok: bool, c: Counts)
      requires tor.Valid()
      modifies this
      ensures downloadedChunks == old(downloadedChunks) + Loaded(index, junk)
      ensures ok <==> !NeedsMissing(tor)
      ensures ok ==> Tallied(GoodChunks(tor, sha), downloadedChunks, |tor.hashes|, c)
      ensures ok ==> failedChunks == old(failedChunks) + Failed(GoodChunks(tor, sha), downloadedChunks, |tor.hashes|)
      ensures ok ==> extraChunks == old(extraChunks) + Extra(GoodChunks(tor, sha), downloadedChunks, |tor.hashes|)
    {
      LoadIndex(index, junk);
      var file: nat, off: nat;
      ok, c, file, off := CheckChunks(GoodChunks(tor, sha));
      if ok {
        AllOpened(tor, file, off);
        TallyIsSizes(GoodChunks(tor, sha), downloadedChunks, |tor.hashes|);
      }
    }

    /** The outer loop. */
    method CheckChunks(ghost good: set<nat>) returns (ok: bool, c: Counts, file: nat, off: nat)
      requires tor.Valid() && good == GoodChunks(tor, sha)
      modifies this`failedChunks, this`extraChunks
      ensures !ok ==> NeedsMissing(tor)
      ensures ok ==> CursorAt(tor, Begin(tor, |tor.hashes|), file, off)
      ensures ok ==> c == Tally(good, downloadedChunks, |tor.hashes|)
      ensures ok ==> Recorded(good, downloadedChunks, |tor.hashes|, old(failedChunks), old(extraChunks),
                              failedChunks, extraChunks)
    {
      var buf := new Byte[tor.chunkSize];
      file, off := 0, 0;
      c := Counts(0, 0, 0, 0);
      ghost var f0, e0 := failedChunks, extraChunks;
      for i := 0 to |tor.hashes|
        invariant CursorAt(tor, Begin(tor, i), file, off)
        invariant c == Tally(good, downloadedChunks, i)
        invariant Recorded(good, downloadedChunks, i, f0, e0, failedChunks, extraChunks)
      {
        ghost var f, e := failedChunks, extraChunks;
        ok, c, file, off := CheckChunk(good, i, buf, c, file, off);
        if !ok { return; }
        RecordStep(good, downloadedChunks, i, f0, e0, f, e);
      }
      ok := true;
    }

    /** Its body. */
    method CheckChunk(ghost good: set<nat>, i: nat, buf: array<Byte>, c0: Counts, file0: nat, off0: nat)
      returns (ok: bool, c: Counts, file: nat, off: nat)
      requires tor.Valid() && good == GoodChunks(tor, sha) && i < |tor.hashes| && buf.Length == tor.chunkSize
      requires CursorAt(tor, Begin(tor, i), file0, off0)
      modifies this`failedChunks, this`extraChunks, buf
      ensures !ok ==> NeedsMissing(tor)
      ensures ok ==> CursorAt(tor, Begin(tor, i + 1), file, off) && c == Count(c0, i in downloadedChunks, i in good)
      ensures ok ==> failedChunks == old(failedChunks) + Only(i, i in downloadedChunks && i !in good)
      ensures ok ==> extraChunks == old(extraChunks) + Only(i, i !in downloadedChunks && i in good)
    {
      var size;
      ok, size, file, off := ReadChunk(i, buf, file0, off0);
      if !ok { return ok, c0, file, off; }
      GoodAt(tor, sha, i);
      c := Classify(good, i, sha(buf[..size]), c0);
    }

    /** Chunk `i` has hash `h`. */
    method Classify(ghost good: set<nat>, i: nat, h: Key, c0: Counts) returns (c: Counts)
      requires i < |tor.hashes| && (h == tor.hashes[i] <==> i in good)
      modifies this`failedChunks, this`extraChunks
      ensures c == Count(c0, i in downloadedChunks, i in good)
      ensures failedChunks == old(failedChunks) + Only(i, i in downloadedChunks && i !in good)
      ensures extraChunks == old(extraChunks) + Only(i, i !in downloadedChunks && i in good)
    {
      c := c0;
      if h != tor.hashes[i] {
        if i !in downloadedChunks {
          c := c.(notDownloaded := c.notDownloaded + 1);
        } else {
          c := c.(failed := c.failed + 1);
          failedChunks := failedChunks + {i};
        }
      } else if i !in downloadedChunks {
        c := c.(extra := c.extra + 1);
        extraChunks := extraChunks + {i};
      } else {
        c := c.(ok := c.ok + 1);
      }
    }

    /** `fixIndex` of an index file that held `index`: erase the failed chunks, add the extra ones, and write what
        there is then in ascending order; the file stays as it is when there is nothing to repair. */
    method FixIndex(index: seq<nat>) returns (file: seq<nat>)
      modifies this`downloadedChunks
      ensures downloadedChunks == Repaired(old(downloadedChunks), failedChunks, extraChunks)
      ensures if failedChunks == {} && extraChunks == {} then file == index
              else Elements(file) == downloadedChunks && Ascending(file)
    {
      if failedChunks == {} && extraChunks == {} { return index; }
      RemoveFailed();
      AddExtra();
      file := WriteIndex(downloadedChunks);
    }

    /** Its first loop. */
    method RemoveFailed()
      modifies this`downloadedChunks
      ensures downloadedChunks == old(downloadedChunks) - failedChunks
    {
      var rest := failedChunks;
      while rest != {}
        invariant rest <= failedChunks && downloadedChunks == old(downloadedChunks) - (failedChunks - rest)
        decreases |rest|
      {
        var i :| i in rest;
        rest := rest - {i};
        downloadedChunks := downloadedChunks - {i};
      }
    }

    /** Its second loop. */
    method AddExtra()
      modifies this`downloadedChunks
      ensures downloadedChunks == old(downloadedChunks) + extraChunks
    {
      var rest := extraChunks;
      while rest != {}
        invariant rest <= extraChunks && downloadedChunks == old(downloadedChunks) + (extraChunks - rest)
        decreases |rest|
      {
        var i :| i in rest;
        rest := rest - {i};
        downloadedChunks := downloadedChunks + {i};
      }
    }
  }

  // ---- the index file ----

  function Elements(s: seq<nat>): set<nat> { set i | i in s }

  /** What an index file is taken to list. */
  function Loaded(index: seq<nat>, junk: nat): set<nat> {
    if index == [] then {} else Elements(index) + {junk}
  }

  ghost predicate Ascending(s: seq<nat>) { forall i, j :: 0 <= i < j < |s| ==> s[i] < s[j] }

  predicate IsLeast(s: set<nat>, i: nat) { i in s && forall j <- s :: i <= j }

  lemma {:induction false} LeastExists(s: set<nat>) returns (i: nat)
    requires s != {}
    ensures IsLeast(s, i)
  {
    i :| i in s;
    var rest := s - {i};
    assert s == rest + {i};
    if rest != {} {
      var y := LeastExists(rest);
      if y < i { i := y; }
    }
  }

  /** `file` lists the members of `chunks` that are not in `rest`, in order, and they come before those. */
  ghost predicate Written(file: seq<nat>, chunks: set<nat>, rest: set<nat>) {
    && rest <= chunks && Elements(file) == chunks - rest && Ascending(file)
    && forall i, j :: i in Elements(file) && j in rest ==> i < j
  }

  lemma WriteOne(file: seq<nat>, chunks: set<nat>, rest: set<nat>, i: nat)
    requires Written(file, chunks, rest) && IsLeast(rest, i)
    ensures Written(file + [i], chunks, rest - {i})
  {
    forall j | 0 <= j < |file| ensures file[j] < i { assert file[j] in Elements(file); }
    assert Elements(file + [i]) == Elements(file) + {i};
    assert chunks - (rest - {i}) == (chunks - rest) + {i};
  }

  /** The loop over a `std::set` visits its members in ascending order. */
  method WriteIndex(chunks: set<nat>) returns (file: seq<nat>)
    ensures Elements(file) == chunks && Ascending(file)
  {
    file := [];
    var rest := chunks;
    while rest != {}
      invariant Written(file, chunks, rest)
      decreases |rest|
    {
      ghost var least := LeastExists(rest);
      var i :| i in rest && IsLeast(rest, i);
      WriteOne(file, chunks, rest, i);
      rest := rest - {i};
      file := file + [i];
    }
  }

  /** The index lists, of the torrent's chunks, exactly the good ones. */
  ghost predicate ListsGood(d: set<nat>, good: set<nat>, n: nat) {
    forall i: nat :: i < n ==> (i in d <==> i in good)
  }

  /** A check finds no failed and no extra chunk exactly then. */
  lemma CleanIff(good: set<nat>, d: set<nat>, n: nat)
    ensures |Failed(good, d, n)| == 0 && |Extra(good, d, n)| == 0 <==> ListsGood(d, good, n)
  {
    forall i: nat
      ensures i in Failed(good, d, n) <==> i < n && i in d && i !in good
      ensures i in Extra(good, d, n) <==> i < n && i !in d && i in good
    {
      ClassMember(good, d, n, true, false, i);
      ClassMember(good, d, n, false, true, i);
    }
    if |Failed(good, d, n)| == 0 && |Extra(good, d, n)| == 0 {
      assert Failed(good, d, n) == {} && Extra(good, d, n) == {};
    }
    if ListsGood(d, good, n) {
      assert Failed(good, d, n) == {} && Extra(good, d, n) == {};
    }
  }

  /** What a repaired index is taken to list is right unless the header left over from the failing read names a
      chunk of the torrent that is not good. */
  lemma RepairedLoads(t: Torrent, sha: Hash, d: set<nat>, file: seq<nat>, junk: nat)
    requires t.Valid()
    requires var n, good := |t.hashes|, GoodChunks(t, sha);
             Elements(file) == Repaired(d, Failed(good, d, n), Extra(good, d, n))
    ensures var n, good := |t.hashes|, GoodChunks(t, sha);
            ListsGood(Loaded(file, junk), good, n) <==> file == [] || junk >= n || junk in good
  {
    RepairIsFinal(t, sha, d);
    var n, good := |t.hashes|, GoodChunks(t, sha);
    assert ListsGood(Elements(file), good, n) by {
      forall i: nat | i < n ensures i in Elements(file) <==> i in good { GoodAt(t, sha, i); }
    }
    if file == [] { assert Elements(file) == {}; }
    if ListsGood(Loaded(file, junk), good, n) && file != [] { assert junk in Loaded(file, junk); }
  }

  /** A checker of its own for each check. */
  method CheckAfresh(tor: Torrent, sha: Hash, index: seq<nat>, junk: nat)
    returns (ok: bool, c: Counts, checker: MultiCacheChecker)
    requires tor.Valid()
    ensures fresh(checker) && (ok <==> !NeedsMissing(tor))
    ensures ok ==>
              var n, good, d := |tor.hashes|, GoodChunks(tor, sha), Loaded(index, junk);
              && checker.downloadedChunks == d
              && checker.failedChunks == Failed(good, d, n) && checker.extraChunks == Extra(good, d, n)
    ensures ok ==> (c.failed == 0 && c.extra == 0 <==> checker.failedChunks == {} && checker.extraChunks == {})
    ensures ok ==>
              (c.failed == 0 && c.extra == 0 <==> ListsGood(Loaded(index, junk), GoodChunks(tor, sha), |tor.hashes|))
  {
    checker := new MultiCacheChecker(tor, sha);
    ok, c := checker.Check(index, junk);
    if ok {
      EmptyIff(checker.failedChunks);
      EmptyIff(checker.extraChunks);
      CleanIff(GoodChunks(tor, sha), Loaded(index, junk), |tor.hashes|);
    }
  }

  /** Check, repair, and check again with what the repair left on disk: the second check completes and, if there
      was something to repair, finds nothing more exactly when the junk it reads behind the end of the index does
      no harm; for one, when the header simply keeps the last chunk listed. */
  method CheckRepairCheck(tor: Torrent, sha: Hash, index: seq<nat>, junk1: nat, junk2: nat)
    returns (ok: bool, c1: Counts, c2: Counts, file: seq<nat>)
    requires tor.Valid()
    ensures ok <==> !NeedsMissing(tor)
    ensures ok ==> (c2.failed == 0 && c2.extra == 0 <==>
                    ListsGood(Loaded(file, junk2), GoodChunks(tor, sha), |tor.hashes|))
    ensures ok && c1.failed == 0 && c1.extra == 0 ==> file == index
    ensures ok && (c1.failed > 0 || c1.extra > 0) ==>
              && Ascending(file) && ListsGood(Elements(file), GoodChunks(tor, sha), |tor.hashes|)
              && (c2.failed == 0 && c2.extra == 0 <==>
                  file == [] || junk2 >= |tor.hashes| || junk2 in GoodChunks(tor, sha))
    ensures ok && file != [] && junk2 == file[|file| - 1] && (c1.failed > 0 || c1.extra > 0) ==>
              c2.failed == 0 && c2.extra == 0
  {
    c2, file := Counts(0, 0, 0, 0), index;
    var first, second;
    ok, c1, first := CheckAfresh(tor, sha, index, junk1);
    if !ok { return; }
    file := first.FixIndex(index);
    ok, c2, second := CheckAfresh(tor, sha, file, junk2);
    if c1.failed > 0 || c1.extra > 0 { RepairedIs(tor, sha, Loaded(index, junk1), file, junk2); }
  }

  lemma EmptyIff(s: set<nat>)
    ensures |s| == 0 <==> s == {}
  {
  }

  lemma RepairedIs(t: Torrent, sha: Hash, d: set<nat>, file: seq<nat>, junk: nat)
    requires t.Valid()
    requires var n, good := |t.hashes|, GoodChunks(t, sha);
             Elements(file) == Repaired(d, Failed(good, d, n), Extra(good, d, n))
    ensures var n, good := |t.hashes|, GoodChunks(t, sha);
            && ListsGood(Elements(file), good, n)
            && (ListsGood(Loaded(file, junk), good, n) <==> file == [] || junk >= n || junk in good)
            && (file != [] && junk == file[|file| - 1] ==> ListsGood(Loaded(file, junk), good, n))
  {
    var n, good := |t.hashes|, GoodChunks(t, sha);
    RepairIsFinal(t, sha, d);
    forall i: nat | i < n ensures i in Elements(file) <==> i in good { GoodAt(t, sha, i); }
    RepairedLoads(t, sha, d, file, junk);
    if file != [] && junk == file[|file| - 1] { assert junk in Elements(file); }
  }

  /** Put the bytes of a file into the buffer. */
  method ReadAt(buf: array<Byte>, at: nat, data: seq<Byte>)
    requires at + |data| <= buf.Length
    modifies buf
    ensures buf[..at + |data|] == old(buf[..at]) + data
  {
    for k := 0 to |data|
      invariant buf[..at] == old(buf[..at]) && buf[at..at + k] == data[..k]
    {
      buf[at + k] := data[k];
      assert buf[at..at + k + 1] == buf[at..at + k] + [data[k]];
    }
    assert buf[..at + |data|] == buf[..at] + buf[at..at + |data|];
  }

  /** The first `n` files are there. */
  ghost predicate Opened(files: seq<TorrentFile>, n: nat)
    requires n <= |files|
  {
    n > 0 ==> Opened(files, n - 1) && files[n - 1].disk.Stored?
  }

  lemma {:induction false} OpenedAt(files: seq<TorrentFile>, n: nat, k: nat)
    requires k < n <= |files| && Opened(files, n)
    ensures files[k].disk.Stored?
  {
    if k < n - 1 { OpenedAt(files, n - 1, k); }
  }

  /** The file cursor stands at byte `p` of the concatenation, and every file it has been in is there. */
  ghost predicate CursorAt(t: Torrent, p: nat, file: nat, off: nat) {
    && file <= |t.files|
    && p == Start(t.files, file) + off
    && (if file == |t.files| then off == 0 else off <= t.files[file].size)
    && Opened(t.files, file)
    && (off > 0 ==> t.files[file].disk.Stored?)
  }

  lemma NextFile(t: Torrent, p: nat, file: nat, off: nat)
    requires file < |t.files| && p == Start(t.files, file) + off && off == t.files[file].size
    requires Opened(t.files, file) && t.files[file].disk.Stored?
    ensures CursorAt(t, p, file + 1, 0)
  {
  }

  lemma MissingNeeded(t: Torrent, k: nat)
    requires k < |t.files| && Start(t.files, k) < t.Total() && t.files[k].disk.Missing?
    ensures NeedsMissing(t)
  {
  }

  /** Before the end there is a file to read from. */
  lemma FileInRange(t: Torrent, p: nat, file: nat, off: nat)
    requires CursorAt(t, p, file, off) && p < t.Total()
    ensures file < |t.files| && Start(t.files, file) < t.Total()
  {
  }

  lemma EndReached(t: Torrent)
    requires t.Valid()
    ensures Begin(t, |t.hashes|) == t.Total()
  {
    BeginIs(t, |t.hashes|);
    DivBounds(t.Total(), t.chunkSize, |t.hashes|);
  }

  /** At the end every file that starts before it has been opened. */
  lemma AllOpened(t: Torrent, file: nat, off: nat)
    requires t.Valid() && CursorAt(t, Begin(t, |t.hashes|), file, off)
    ensures !NeedsMissing(t)
  {
    EndReached(t);
    forall k | 0 <= k < |t.files| && Start(t.files, k) < t.Total() ensures t.files[k].disk.Stored? {
      if k > file { StartMonotone(t.files, file + 1, k); }
      if k < file { OpenedAt(t.files, file, k); }
    }
  }

  /** One more chunk enters exactly one of the four classes. */
  lemma ClassSize(good: set<nat>, d: set<nat>, i: nat, inIndex: bool, isGood: bool)
    ensures |Class(good, d, i + 1, inIndex, isGood)| ==
            |Class(good, d, i, inIndex, isGood)| + if (i in d) == inIndex && (i in good) == isGood then 1 else 0
  {
    ClassMember(good, d, i, inIndex, isGood, i);
  }

  lemma GoodAt(t: Torrent, sha: Hash, i: nat)
    requires t.Valid() && i < |t.hashes|
    ensures i in GoodChunks(t, sha) <==> sha(Chunk(t, i)) == t.hashes[i]
  {
  }

  function Of(c: Counts, inIndex: bool, isGood: bool): nat {
    if isGood then (if inIndex then c.ok else c.extra) else if inIndex then c.failed else c.notDownloaded
  }

  lemma {:induction false} TallyIsSize(good: set<nat>, d: set<nat>, n: nat, inIndex: bool, isGood: bool)
    ensures Of(Tally(good, d, n), inIndex, isGood) == |Class(good, d, n, inIndex, isGood)|
  {
    if n > 0 {
      TallyIsSize(good, d, n - 1, inIndex, isGood);
      ClassSize(good, d, n - 1, inIndex, isGood);
    }
  }

  lemma {:induction false} TallySum(good: set<nat>, d: set<nat>, n: nat)
    ensures var c := Tally(good, d, n); c.ok + c.failed + c.notDownloaded + c.extra == n
  {
    if n > 0 { TallySum(good, d, n - 1); }
  }

  lemma TallyIsSizes(good: set<nat>, d: set<nat>, n: nat)
    ensures Tallied(good, d, n, Tally(good, d, n))
  {
    TallyIsSize(good, d, n, true, true);
    TallyIsSize(good, d, n, true, false);
    TallyIsSize(good, d, n, false, true);
    TallyIsSize(good, d, n, false, false);
    TallySum(good, d, n);
  }

  /** The two sets grow by that chunk when it belongs there. */
  lemma RecordStep(good: set<nat>, d: set<nat>, i: nat, f0: set<nat>, e0: set<nat>, f: set<nat>, e: set<nat>)
    requires Recorded(good, d, i, f0, e0, f, e)
    ensures Recorded(good, d, i + 1, f0, e0, f + Only(i, i in d && i !in good), e + Only(i, i !in d && i in good))
  {
    assert Failed(good, d, i + 1) == Failed(good, d, i) + Only(i, i in d && i !in good);
    assert Extra(good, d, i + 1) == Extra(good, d, i) + Only(i, i !in d && i in good);
  }
}
