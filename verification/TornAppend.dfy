/** A crash inside the write of a record: what a restart finds is the state before that
    append or after it, never anything else. */
module TornAppend {
  import opened Basics
  import opened Models
  import opened Names
  import opened LogFormat
  import opened LogReader
  import opened LogReplay
  import opened TornTail
  import opened Index
  import opened Engine
  import opened EngineInvariant
  import opened EngineTheorems
  import opened Recovery

  /** The directory when the append of `p` to the last segment was cut after `k` bytes. */
  function Torn(crc: Checksum, files: Directory, segs: seq<seq<Photo>>, p: Photo, k: nat): Directory
    requires segs != [] && k <= |Line(crc, p)|
  {
    files[Name(|segs|) := Lines(crc, segs[|segs| - 1]) + Line(crc, p)[..k]]
  }

  /** What a replay reads of the cut record: nothing, or the record, with its length one
      less if only the newline is missing. */
  function TornRecord(crc: Checksum, segs: seq<seq<Photo>>, p: Photo, k: nat): seq<PhotoMeta>
    requires segs != []
  {
    if k < |Body(crc, p)| then [] else [Place(p, Name(|segs|), |Lines(crc, segs[|segs| - 1])|, k)]
  }

  lemma ScanCut(crc: Checksum, segment: string, p: Photo, k: nat, pos: nat)
    requires k <= |Line(crc, p)|
    ensures Scan(crc, segment, Line(crc, p)[..k], pos) ==
            if k < |Body(crc, p)| then [] else [Place(p, segment, pos, k)]
  {
    LineEnding(crc, p);
    hide Body, Line, Scan;
    if k < |Line(crc, p)| {
      ScanTornLine(crc, segment, p, k, pos);
    } else {
      assert Line(crc, p)[..k] + [] == Line(crc, p) && Line(crc, p)[..k] == Line(crc, p);
      ScanLine(crc, segment, p, [], pos);
      ScanNothing(crc, segment, pos + k);
    }
  }

  lemma ScanNothing(crc: Checksum, segment: string, pos: nat)
    ensures Scan(crc, segment, [], pos) == []
  {
  }

  /** A replay of the cut segment from a record boundary. */
  lemma ScanFromCut(crc: Checksum, segment: string, ps: seq<Photo>, p: Photo, k: nat, i: nat)
    requires k <= |Line(crc, p)| && i <= |ps|
    ensures ScanFrom(crc, segment, Lines(crc, ps) + Line(crc, p)[..k], Start(crc, ps, i)) ==
            ScanFrom(crc, segment, Lines(crc, ps), Start(crc, ps, i)) +
            if k < |Body(crc, p)| then [] else [Place(p, segment, |Lines(crc, ps)|, k)]
  {
    hide *;
    var off, cut := Start(crc, ps, i), Line(crc, p)[..k];
    SplitLines(crc, ps, i);
    SeekInto(crc, segment, Lines(crc, ps), cut, off);
    ScanFromIsScan(crc, segment, Lines(crc, ps), off);
    ScanLinesThen(crc, segment, ps[i..], cut, off);
    ScanLines(crc, segment, ps[i..], off);
    ScanCut(crc, segment, p, k, |Lines(crc, ps)|);
    assert off + |Lines(crc, ps[i..])| == |Lines(crc, ps)|;
  }

  lemma SeekInto(crc: Checksum, segment: string, b: Bytes, more: Bytes, off: nat)
    requires off <= |b|
    ensures ScanFrom(crc, segment, b + more, off) == Scan(crc, segment, b[off..] + more, off)
  {
    ScanFromIsScan(crc, segment, b + more, off);
    hide Scan, ScanFrom;
    assert (b + more)[off..] == b[off..] + more;
  }

  lemma ScanWholeCut(crc: Checksum, segment: string, ps: seq<Photo>, p: Photo, k: nat)
    requires k <= |Line(crc, p)|
    ensures Scan(crc, segment, Lines(crc, ps) + Line(crc, p)[..k], 0) ==
            Located(crc, segment, ps, 0) + if k < |Body(crc, p)| then [] else [Place(p, segment, |Lines(crc, ps)|, k)]
  {
    hide Body, Line, Scan, Lines;
    ScanLinesThen(crc, segment, ps, Line(crc, p)[..k], 0);
    ScanCut(crc, segment, p, k, |Lines(crc, ps)|);
  }

  /** The files of the cut directory: the earlier segments are whole. */
  lemma TornFiles(crc: Checksum, files: Directory, segs: seq<seq<Photo>>, p: Photo, k: nat, j: nat)
    requires Holds(crc, files, segs) && segs != [] && k <= |Line(crc, p)| && j < |segs|
    ensures var cut := Torn(crc, files, segs, p, k);
            && Name(j + 1) in cut && Listing(cut.Keys) == NameRange(1, |segs| + 1)
            && cut[Name(j + 1)] == if j < |segs| - 1 then Lines(crc, segs[j])
                                   else Lines(crc, segs[j]) + Line(crc, p)[..k]
  {
    hide *;
    HoldsFile(crc, files, segs, j);
    HoldsFile(crc, files, segs, |segs| - 1);
    HoldsBound(crc, files, segs);
    ListingOfHolds(crc, files, segs);
    TornUpdates(crc, files, segs, p, k);
    if j < |segs| - 1 && Name(j + 1) == Name(|segs|) { NameInjective(j + 1, |segs|); }
  }

  lemma TornUpdates(crc: Checksum, files: Directory, segs: seq<seq<Photo>>, p: Photo, k: nat)
    requires segs != [] && k <= |Line(crc, p)| && Name(|segs|) in files
    ensures var cut, last := Torn(crc, files, segs, p, k), Name(|segs|);
            && cut.Keys == files.Keys
            && cut[last] == Lines(crc, segs[|segs| - 1]) + Line(crc, p)[..k]
            && forall name :: name in files && name != last ==> cut[name] == files[name]
  {
    hide Name, Lines, Line;
  }

  lemma {:induction false} ReplayTorn(crc: Checksum, files: Directory, segs: seq<seq<Photo>>, p: Photo, k: nat, j: nat)
    requires Holds(crc, files, segs) && segs != [] && k <= |Line(crc, p)| && j < |segs|
    ensures ReplayNames(crc, Torn(crc, files, segs, p, k), NameRange(j + 1, |segs| + 1)) ==
            AllLocated(crc, segs, j) + TornRecord(crc, segs, p, k)
    decreases |segs| - j
  {
    hide *;
    var n, cut := |segs|, Torn(crc, files, segs, p, k);
    ReplayTornFile(crc, files, segs, p, k, j);
    ReplayFirst(crc, cut, j + 1, n + 1);
    AllLocatedFirst(crc, segs, j);
    if j < n - 1 {
      ReplayTorn(crc, files, segs, p, k, j + 1);
      Associate(Located(crc, Name(j + 1), segs[j], 0), AllLocated(crc, segs, j + 1), TornRecord(crc, segs, p, k));
    } else {
      ReplayNone(crc, cut, n + 1);
      AllLocatedFirst(crc, segs, n);
    }
  }

  lemma ReplayTornFile(crc: Checksum, files: Directory, segs: seq<seq<Photo>>, p: Photo, k: nat, j: nat)
    requires Holds(crc, files, segs) && segs != [] && k <= |Line(crc, p)| && j < |segs|
    ensures ReplayFile(crc, Torn(crc, files, segs, p, k), Name(j + 1)) ==
            Located(crc, Name(j + 1), segs[j], 0) + if j < |segs| - 1 then [] else TornRecord(crc, segs, p, k)
  {
    TornFiles(crc, files, segs, p, k, j);
    hide Name, Lines, Line, Body, Listing, Holds, Torn, Scan, Located;
    if j < |segs| - 1 {
      ScanLines(crc, Name(j + 1), segs[j], 0);
    } else {
      ScanWholeCut(crc, Name(j + 1), segs[j], p, k);
    }
  }

  /** The full replay of a log whose last append was cut. */
  lemma ReplayAllTorn(crc: Checksum, files: Directory, segs: seq<seq<Photo>>, p: Photo, k: nat)
    requires Holds(crc, files, segs) && segs != [] && k <= |Line(crc, p)|
    ensures ReplayAll(crc, Torn(crc, files, segs, p, k)) == AllLocated(crc, segs, 0) + TornRecord(crc, segs, p, k)
  {
    hide *;
    TornFiles(crc, files, segs, p, k, 0);
    ReplayTorn(crc, files, segs, p, k, 0);
    ReplayAllIs(crc, Torn(crc, files, segs, p, k));
  }

  /** An entry that differs in its length only shows the same photo. */
  lemma LengthIsNotShown(ix: Entries, ms: seq<PhotoMeta>, a: PhotoMeta, b: PhotoMeta)
    requires Settled(a) == Settled(b)
    ensures Live(PutAll(ix, ms + [a]).primary) == Live(PutAll(ix, ms + [b]).primary)
  {
    PutAllConcat(ix, ms, [a]);
    PutAllConcat(ix, ms, [b]);
    assert [a][1..] == [] && [b][1..] == [];
    var t := PutAll(ix, ms);
    assert PutAll(ix, ms + [a]) == Put(t, a) && PutAll(ix, ms + [b]) == Put(t, b);
    hide PutAll;
    assert a.photo == b.photo && a.segmentId == b.segmentId;
  }

  /** A crash inside the last append of any run, at any byte: a full replay shows the
      photos of memory before that append if its body is not complete, and those after
      the append and its index update if it is. */
  lemma CrashInAppend(crc: Checksum, s: Store, step: Step, k: nat, files: Directory)
    requires Reachable(crc, s) && s.segs != [] && Enabled(crc, s, step) && IsAppend(step)
    requires Holds(crc, files, s.segs) && k <= |Line(crc, Written(s, step))|
    ensures var p := Written(s, step);
            Live(PutAll(EMPTY, ReplayAll(crc, Torn(crc, files, s.segs, p, k))).primary) ==
            Live(After(if k < |Body(crc, p)| then s else Do(crc, s, step)).primary)
  {
    hide *;
    AppendNeeds(crc, s, step);
    var p, t := Written(s, step), Do(crc, s, step);
    AppendLeaves(crc, s, step);
    ReplayAllTorn(crc, files, s.segs, p, k);
    LogShowsMemory(crc, s);
    LogShowsMemory(crc, t);
    TornAgainstWhole(crc, s.segs, p, k);
  }

  lemma TornAgainstWhole(crc: Checksum, segs: seq<seq<Photo>>, p: Photo, k: nat)
    requires segs != [] && k <= |Line(crc, p)|
    ensures Live(PutAll(EMPTY, AllLocated(crc, segs, 0) + TornRecord(crc, segs, p, k)).primary) ==
            Live(LoadFrom(crc, if k < |Body(crc, p)| then segs else AppendTo(segs, p), NoSnapshot).primary)
  {
    hide Live, PutAll, AllLocated, Name, Lines, Line, Body, AppendTo;
    var ms := AllLocated(crc, segs, 0);
    if k < |Body(crc, p)| {
      assert ms + [] == ms;
    } else {
      var m := Place(p, Name(|segs|), |Lines(crc, segs[|segs| - 1])|, |Line(crc, p)|);
      AllLocatedAfterAppend(crc, segs, p, 0);
      LengthIsNotShown(EMPTY, ms, TornRecord(crc, segs, p, k)[0], m);
    }
  }

  // ------------------------------------------------- behind a snapshot

  /** One file of the cut directory behind a watermark. */
  lemma ReplayTornFileAfter(
      crc: Checksum, files: Directory, segs: seq<seq<Photo>>, p: Photo, k: nat, j: nat, w: nat, off: nat)
    requires Holds(crc, files, segs) && k <= |Line(crc, p)| && j < |segs| && w < |segs|
    requires AtBoundary(crc, segs, w, off)
    ensures ReplayFileAfter(crc, Torn(crc, files, segs, p, k), Name(j + 1), w + 1, off) ==
            (if j < w then []
             else if j == w then ScanFrom(crc, Name(j + 1), Lines(crc, segs[j]), off)
             else Located(crc, Name(j + 1), segs[j], 0)) +
            (if j < |segs| - 1 then [] else TornRecord(crc, segs, p, k))
  {
    hide *;
    var cut := Torn(crc, files, segs, p, k);
    TornFiles(crc, files, segs, p, k, j);
    ReplayTornFile(crc, files, segs, p, k, j);
    HoldsBound(crc, files, segs);
    ByCounter(crc, cut, j, w, off);
    if j == w && j < |segs| - 1 {
      FileFrom(crc, cut, Name(j + 1), off);
    } else if j == w {
      FileFrom(crc, cut, Name(j + 1), off);
      BoundaryOfActive(crc, segs, w, off);
      BoundaryAt(crc, segs[w], off);
      var i :| 0 <= i <= |segs[w]| && off == Start(crc, segs[w], i);
      ScanFromCut(crc, Name(w + 1), segs[w], p, k, i);
      TornRecordIs(crc, segs, p, k);
    }
  }

  lemma BoundaryAt(crc: Checksum, ps: seq<Photo>, off: nat)
    requires IsBoundary(crc, ps, off)
    ensures exists i :: 0 <= i <= |ps| && off == Start(crc, ps, i)
  {
    hide Start;
  }

  lemma BoundaryOfActive(crc: Checksum, segs: seq<seq<Photo>>, w: nat, off: nat)
    requires w < |segs| && AtBoundary(crc, segs, w, off) && w == |segs| - 1
    ensures IsBoundary(crc, segs[w], off)
  {
    hide IsBoundary;
  }

  lemma TornRecordIs(crc: Checksum, segs: seq<seq<Photo>>, p: Photo, k: nat)
    requires segs != []
    ensures TornRecord(crc, segs, p, k) ==
            if k < |Body(crc, p)| then [] else [Place(p, Name(|segs|), |Lines(crc, segs[|segs| - 1])|, k)]
  {
    hide Name, Lines, Body;
  }

  /** The three cases of a listed segment. */
  lemma ByCounter(crc: Checksum, files: Directory, j: nat, w: nat, off: nat)
    requires j < MAX_COUNTER
    ensures ReplayFileAfter(crc, files, Name(j + 1), w + 1, off) ==
            if j < w then []
            else if j == w then ReplayFileFrom(crc, files, Name(j + 1), off)
            else ReplayFile(crc, files, Name(j + 1))
  {
    NameRoundTrip(j + 1);
    hide Name, IsSegment, Counter, ReplayFile, ReplayFileFrom;
  }

  lemma FileFrom(crc: Checksum, files: Directory, segment: string, off: nat)
    requires segment in files
    ensures ReplayFileFrom(crc, files, segment, off) == ScanFrom(crc, segment, files[segment], off)
  {
    hide ScanFrom;
  }

  lemma {:induction false} ReplayTornAfter(
      crc: Checksum, files: Directory, segs: seq<seq<Photo>>, p: Photo, k: nat, j: nat, w: nat, off: nat)
    requires Holds(crc, files, segs) && k <= |Line(crc, p)| && j < |segs| && w < |segs|
    requires AtBoundary(crc, segs, w, off)
    ensures ReplayNamesAfter(crc, Torn(crc, files, segs, p, k), NameRange(j + 1, |segs| + 1), w + 1, off) ==
            (if j <= w then TailFrom(crc, segs, w, off) else AllLocated(crc, segs, j)) + TornRecord(crc, segs, p, k)
    decreases |segs| - j
  {
    hide *;
    var n, cut, rest := |segs|, Torn(crc, files, segs, p, k), TornRecord(crc, segs, p, k);
    ReplayTornFileAfter(crc, files, segs, p, k, j, w, off);
    ReplayFirstAfter(crc, cut, j + 1, n + 1, w + 1, off);
    if j == n - 1 {
      ReplayNoneAfter(crc, cut, n + 1, w + 1, off);
      LastTail(crc, segs, j, w, off);
    } else {
      ReplayTornAfter(crc, files, segs, p, k, j + 1, w, off);
      if j == w {
        TailIs(crc, segs, w, off);
        Associate(ScanFrom(crc, Name(w + 1), Lines(crc, segs[w]), off), AllLocated(crc, segs, w + 1), rest);
      } else if j > w {
        AllLocatedFirst(crc, segs, j);
        Associate(Located(crc, Name(j + 1), segs[j], 0), AllLocated(crc, segs, j + 1), rest);
      }
    }
  }

  /** What the last segment adds to a replay behind a watermark. */
  lemma LastTail(crc: Checksum, segs: seq<seq<Photo>>, j: nat, w: nat, off: nat)
    requires w <= j && j + 1 == |segs|
    ensures j == w ==> TailFrom(crc, segs, w, off) == ScanFrom(crc, Name(w + 1), Lines(crc, segs[w]), off)
    ensures AllLocated(crc, segs, j) == Located(crc, Name(j + 1), segs[j], 0)
  {
    NoneBehind(crc, segs, j + 1);
    hide Located, Name, ScanFrom, Lines;
  }

  lemma NoneBehind(crc: Checksum, segs: seq<seq<Photo>>, j: nat)
    requires j >= |segs|
    ensures AllLocated(crc, segs, j) == []
  {
  }

  lemma ReplayAfterTorn(
      crc: Checksum, files: Directory, segs: seq<seq<Photo>>, p: Photo, k: nat, w: nat, off: nat)
    requires Holds(crc, files, segs) && k <= |Line(crc, p)| && w < |segs| && AtBoundary(crc, segs, w, off)
    ensures ReplayAfter(crc, Torn(crc, files, segs, p, k), Name(w + 1), off) ==
            TailFrom(crc, segs, w, off) + TornRecord(crc, segs, p, k)
  {
    hide *;
    HoldsBound(crc, files, segs);
    NameRoundTrip(w + 1);
    TornFiles(crc, files, segs, p, k, 0);
    ReplayAfterUnfolds(crc, Torn(crc, files, segs, p, k), Name(w + 1), off);
    ReplayTornAfter(crc, files, segs, p, k, 0, w, off);
  }

  /** Loading a snapshot with the cut log shows what loading it with the log before or
      after the append shows. */
  lemma LoadTorn(
      crc: Checksum, files: Directory, segs: seq<seq<Photo>>, p: Photo, k: nat, w: nat, off: nat,
      records: seq<PhotoMeta>, rewritten: nat)
    requires Holds(crc, files, segs) && k <= |Line(crc, p)| && w < |segs| && AtBoundary(crc, segs, w, off)
    ensures var file := Stored(SNAPSHOT_VERSION, Name(w + 1), off, records);
            var segs' := if k < |Body(crc, p)| then segs else AppendTo(segs, p);
            Live(Load(crc, EMPTY, Torn(crc, files, segs, p, k), file).primary) ==
            Live(LoadFrom(crc, segs', Snapshot(w, off, records, rewritten)).primary)
  {
    hide Live, PutAll, TailFrom, Name, Lines, Line, Body, AppendTo, Torn, Holds, ReplayAfter, AtBoundary;
    ReplayAfterTorn(crc, files, segs, p, k, w, off);
    var ms := TailFrom(crc, segs, w, off);
    if k < |Body(crc, p)| {
      assert ms + [] == ms;
    } else {
      var m := Place(p, Name(|segs|), |Lines(crc, segs[|segs| - 1])|, |Line(crc, p)|);
      TailAfterAppend(crc, segs, p, w, off);
      LengthIsNotShown(PutAll(EMPTY, records), ms, TornRecord(crc, segs, p, k)[0], m);
    }
  }

  /** The same crash with a start-up from a snapshot: the photos shown are those of memory
      before or after the append if and only if the snapshot is usable with the log before
      or after it. */
  lemma CrashInAppendWithSnapshot(
      crc: Checksum, s: Store, step: Step, k: nat, files: Directory, file: SnapshotFile)
    requires Reachable(crc, s) && s.segs != [] && Enabled(crc, s, step) && IsAppend(step)
    requires OnDisk(crc, s, files, file) && s.snapshot.Snapshot? && k <= |Line(crc, Written(s, step))|
    ensures var p := Written(s, step);
            var t := if k < |Body(crc, p)| then s else Do(crc, s, step);
            Live(Load(crc, EMPTY, Torn(crc, files, s.segs, p, k), file).primary) == Live(After(t).primary) <==>
            Usable(crc, t.segs, t.snapshot)
  {
    hide *;
    AppendNeeds(crc, s, step);
    var p, t := Written(s, step), Do(crc, s, step);
    AppendLeaves(crc, s, step);
    SnapshotAtBoundary(crc, s);
    UsableIff(crc, s);
    UsableIff(crc, t);
    OnDiskIs(crc, s, files, file);
    var Snapshot(w, off, records, rewritten) := s.snapshot;
    LoadTorn(crc, files, s.segs, p, k, w, off, records, rewritten);
  }

  lemma OnDiskIs(crc: Checksum, s: Store, files: Directory, file: SnapshotFile)
    requires OnDisk(crc, s, files, file) && s.snapshot.Snapshot?
    ensures Holds(crc, files, s.segs)
    ensures file == Stored(SNAPSHOT_VERSION, Name(s.snapshot.segment + 1), s.snapshot.offset, s.snapshot.records)
  {
    hide Holds, Name;
  }

  /** An append step leaves the snapshot alone and keeps the invariant. */
  lemma AppendLeaves(crc: Checksum, s: Store, step: Step)
    requires Reachable(crc, s) && s.segs != [] && Enabled(crc, s, step) && IsAppend(step)
    ensures Inv(crc, s) && LogInv(s) && SnapshotInv(crc, s.segs, s.snapshot)
    ensures var t := Do(crc, s, step);
            && LogInv(t) && SnapshotInv(crc, t.segs, t.snapshot)
            && t.snapshot == s.snapshot && t.segs == AppendTo(s.segs, Written(s, step))
  {
    ReachableInv(crc, s);
    StepKeepsInv(crc, s, step);
    AppendStep(crc, s, step);
    hide LogInv, SnapshotInv, MarkInv, PassInv, PendingInv, BlobInv;
    hide Do, Enabled, Written, AppendTo, Reachable;
  }

  /** The watermark is a boundary, or its segment was rewritten and so is closed. */
  lemma SnapshotAtBoundary(crc: Checksum, s: Store)
    requires Inv(crc, s) && s.snapshot.Snapshot?
    ensures s.snapshot.segment < |s.segs| && AtBoundary(crc, s.segs, s.snapshot.segment, s.snapshot.offset)
  {
    hide LogInv, MarkInv, PassInv, BlobInv, PendingInv, Covers, Below;
  }
}
