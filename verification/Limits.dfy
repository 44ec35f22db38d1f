/** Runs in which the engine does not keep its promises.  When exactly it does is stated
    in `Recovery` (restarts), `PartialPass` (skipped segments), `PendingUpdates` (look-ups
    and copies of a stale index), `TornTail` (torn writes) and here (blobs). */
module Limits {
  import Json
  import Order
  import opened Basics
  import opened Models
  import opened Names
  import opened LogFormat
  import opened LogReader
  import opened LogReplay
  import opened Index
  import opened Compaction
  import opened Engine
  import opened LogQueries
  import opened EngineInvariant
  import opened EngineTheorems
  import opened Operations
  import opened Recovery
  import opened PartialPass

  // ----------------------------------------------------- runs that go wrong

  function Deletion(p: Photo): Photo {
    p.(tombstone := true)
  }

  lemma NothingIndexedNothingKept(crc: Checksum, segs: seq<seq<Photo>>, j: nat)
    requires j < |segs|
    ensures CompactedSegment(crc, map[], segs, j) == []
  {
    var ms := Located(crc, Name(j + 1), segs[j], 0);
    hide Located, Compacted, Name;
    var kept := Compacted(map[], Name(j + 1), ms);
    if kept != [] {
      assert kept[0] in kept;
      UnindexedRecordIsDropped(map[], Name(j + 1), ms, kept[0].photoId);
    }
  }

  /** A run that ends in a crash in the middle of a pass: upload a photo, take a
      snapshot, delete the photo, which fills the segment, and compact that segment.
      The photo is gone from memory and from the log, but not from the snapshot, and the
      next start-up brings it back. */
  lemma CrashInPassResurrects(crc: Checksum, p: Photo) returns (s: Store)
    requires !p.tombstone
    ensures Reachable(crc, s) && s.pass == Between(1, 1, {}) && !RestartSafe(s)
    ensures s.segs == [[], []] && p.photoId !in After(s).primary
    ensures s.snapshot.Snapshot? && s.snapshot.segment == 0
    ensures IsLive(LoadFrom(crc, s.segs, s.snapshot).primary, p.photoId)
  {
    var m := AppendedMeta(crc, INIT, p);
    var b := Snapshotted(crc, Uploaded(crc, INIT, p, false), [m]);
    UploadedThenSnapshot(crc, p);
    PassOverDeletion(crc, b, p);
    s := PassAt(crc, Deleted(b, p.photoId, true), 1, 1, {});
    EmptyTail(crc, s.segs, s.snapshot.offset);
    PutOne(EMPTY, m);
    PutNothing(PutAll(EMPTY, [m]));
    hide Reaches, PutAll, TailFrom, PassAt, Deleted, Snapshotted, AppendedMeta;
    ReachesOnward(crc, INIT, b, s);
  }

  lemma PutOne(ix: Entries, m: PhotoMeta)
    ensures PutAll(ix, [m]) == Put(ix, m)
  {
    assert [m][1..] == [];
  }

  lemma UploadedThenSnapshot(crc: Checksum, p: Photo)
    requires !p.tombstone
    ensures var m := AppendedMeta(crc, INIT, p);
            var b := Snapshotted(crc, Uploaded(crc, INIT, p, false), [m]);
            && Reaches(crc, INIT, b) && b.segs == [[p]] && b.index == Put(EMPTY, m)
            && b.snapshot == Snapshot(0, |Lines(crc, [p])|, [m], 0) && b.op.Idle? && b.pass.Resting? && b.mark.NoMark?
  {
    hide Reaches, Name, Lines, Line;
    var m := AppendedMeta(crc, INIT, p);
    var a := Uploaded(crc, INIT, p, false);
    assert INIT.segs[0] + [p] == [p];
    assert a.segs == [[p]];
    UploadReaches(crc, INIT, p, false);
    SnapshotReaches(crc, a, [m]);
    ReachesOnward(crc, INIT, a, Snapshotted(crc, a, [m]));
  }

  lemma PassOverDeletion(crc: Checksum, b: Store, p: Photo)
    requires b.segs == [[p]] && b.op.Idle? && b.pass.Resting? && b.mark.NoMark? && b.snapshot.Snapshot?
    requires b.snapshot.segment == 0 && b.snapshot.rewritten == 0
    requires b.index.primary.Keys == {p.photoId} && b.index.primary[p.photoId].photo == p
    ensures var c := Deleted(b, p.photoId, true);
            |c.segs| == 2 &&
            var s := PassAt(crc, c, 1, 1, {});
            && Reaches(crc, b, s) && s.segs == [[], []] && s.snapshot == b.snapshot.(rewritten := 1)
            && s.index.primary == map[] && s.op.Idle? && s.pass == Between(1, 1, {})
  {
    hide Reaches, Name, Lines, Line, Located, CompactedSegment;
    var c := Deleted(b, p.photoId, true);
    assert b.segs[0] + [Deletion(p)] == [p, Deletion(p)];
    assert c.segs == [[p, Deletion(p)], []];
    DeleteReaches(crc, b, p.photoId, true);
    assert c.index.primary == map[];
    NothingIndexedNothingKept(crc, c.segs, 0);
    assert CompactedUpTo(crc, c.index.primary, c.segs, 0, {}) == c.segs;
    assert c.segs[0 := []] == [[], []];
    assert CompactedUpTo(crc, c.index.primary, c.segs, 1, {}) == [[], []];
    assert BumpedSnapshot(c.snapshot, 1, {}) == BumpSnapshot(BumpedSnapshot(c.snapshot, 0, {}), 0);
    PassReaches(crc, c, 1, 1, {});
    ReachesOnward(crc, b, c, PassAt(crc, c, 1, 1, {}));
  }

  lemma EmptyTail(crc: Checksum, segs: seq<seq<Photo>>, off: nat)
    requires segs == [[], []]
    ensures TailFrom(crc, segs, 0, off) == []
  {
    assert Lines(crc, segs[0]) == [];
    assert AllLocated(crc, segs, 2) == [];
  }

  // ------------------------------------------------- a live photo is lost

  /** Another run that ends in a crash in the middle of a pass: upload `p`, take a
      snapshot, upload `q`, which fills the segment, delete `p`, and compact the first
      segment.  The snapshot's offset now lies beyond the start of the record of `q`, the
      only one left in the file, so the next start-up does not read it: a photo that
      memory and the log show is lost. */
  lemma CrashInPassLoses(crc: Checksum, p: Photo, q: Photo) returns (s: Store)
    requires !p.tombstone && !q.tombstone && p.photoId != q.photoId && p.contentHash != q.contentHash
    ensures Reachable(crc, s) && s.pass == Between(1, 1, {}) && s.op.Idle?
    ensures s.segs == [[q], [Deletion(p)]] && IsLive(s.index.primary, q.photoId)
    ensures s.snapshot.Snapshot? && s.snapshot.segment == 0 && s.snapshot.offset == |Line(crc, p)|
    ensures |Line(crc, p)| < |Body(crc, q)| ==> forall i :: 0 <= i <= 1 ==> !SeeksTo(crc, [q], s.snapshot.offset, i)
    ensures q.photoId !in LoadFrom(crc, s.segs, s.snapshot).primary
  {
    var m := AppendedMeta(crc, INIT, p);
    var b := Snapshotted(crc, Uploaded(crc, INIT, p, false), [m]);
    UploadedThenSnapshot(crc, p);
    s := SecondFillsThenPass(crc, b, p, q);
    LinesOfOne(crc, p);
    OffsetInside(crc, p, q);
    NotLoaded(crc, s.segs, s.snapshot, m, p, q);
    hide *;
    ReachesOnward(crc, INIT, b, s);
  }

  lemma NotLoaded(crc: Checksum, segs: seq<seq<Photo>>, sn: Snapshot, m: PhotoMeta, p: Photo, q: Photo)
    requires segs == [[q], [Deletion(p)]] && p.photoId != q.photoId && m.photo == p
    requires sn.Snapshot? && sn.segment == 0 && sn.records == [m]
    requires !ReadsFrom(crc, [q], sn.offset, q.photoId)
    ensures q.photoId !in LoadFrom(crc, segs, sn).primary
  {
    assert Has(segs[0], q.photoId);
    LastPhotoIsMember(segs[1], q.photoId);
    HomeIs(segs, q.photoId, 0);
    PutOne(EMPTY, m);
    hide PutAll, HomeOf, ReadsFrom, LoadFrom, Has, LastPhoto;
    LoadedEntry(crc, segs, sn, q.photoId);
  }

  lemma LinesOfOne(crc: Checksum, p: Photo)
    ensures Lines(crc, [p]) == Line(crc, p)
  {
    hide Line;
    assert [p][1..] == [];
  }

  /** From the end of the line of `p` a segment of `q` alone is never read. */
  lemma OffsetInside(crc: Checksum, p: Photo, q: Photo)
    ensures !ReadsFrom(crc, [q], |Line(crc, p)|, q.photoId)
    ensures |Line(crc, p)| < |Body(crc, q)| ==> forall i :: 0 <= i <= 1 ==> !SeeksTo(crc, [q], |Line(crc, p)|, i)
  {
    LinesOfOne(crc, q);
    LineEnding(crc, q);
    hide Line, Body;
    assert [q][..0] == [] && [q][..1] == [q];
    assert Start(crc, [q], 0) == 0 && Start(crc, [q], 1) == |Line(crc, q)|;
    forall i | 0 <= i <= 1 && SeeksTo(crc, [q], |Line(crc, p)|, i) ensures LastPhoto([q][i..], q.photoId).None? {
      assert i == 1 && [q][1..] == [];
    }
  }

  /** The end of that run, from the snapshot on. */
  lemma SecondFillsThenPass(crc: Checksum, b: Store, p: Photo, q: Photo) returns (s: Store)
    requires !q.tombstone && p.photoId != q.photoId && p.contentHash != q.contentHash
    requires var m := AppendedMeta(crc, INIT, p);
             && b.segs == [[p]] && b.index == Put(EMPTY, m) && b.snapshot == Snapshot(0, |Lines(crc, [p])|, [m], 0)
             && b.op.Idle? && b.pass.Resting? && b.mark.NoMark?
    ensures Reaches(crc, b, s) && s.segs == [[q], [Deletion(p)]] && s.pass == Between(1, 1, {}) && s.op.Idle?
    ensures s.snapshot == b.snapshot.(rewritten := 1)
    ensures IsLive(s.index.primary, q.photoId)
  {
    var d := SecondFills(crc, b, p, q);
    s := PassAt(crc, d, 1, 1, {});
    OnlySecondKept(crc, d.index.primary, d.segs, p, q);
    assert CompactedUpTo(crc, d.index.primary, d.segs, 0, {}) == d.segs;
    assert d.segs[0 := [q]] == [[q], [Deletion(p)]];
    assert BumpedSnapshot(d.snapshot, 1, {}) == BumpSnapshot(BumpedSnapshot(d.snapshot, 0, {}), 0);
    hide Reaches, Name, Lines, Line, CompactedSegment;
    PassReaches(crc, d, 1, 1, {});
    ReachesOnward(crc, b, d, s);
  }

  lemma SecondFills(crc: Checksum, b: Store, p: Photo, q: Photo) returns (d: Store)
    requires !q.tombstone && p.photoId != q.photoId && p.contentHash != q.contentHash
    requires var m := AppendedMeta(crc, INIT, p);
             && b.segs == [[p]] && b.index == Put(EMPTY, m) && b.snapshot == Snapshot(0, |Lines(crc, [p])|, [m], 0)
             && b.op.Idle? && b.pass.Resting? && b.mark.NoMark?
    ensures Reaches(crc, b, d) && d.segs == [[p, q], [Deletion(p)]] && d.pass.Resting? && d.op.Idle?
    ensures d.snapshot == b.snapshot && d.mark.NoMark? && p.photoId !in d.index.primary
    ensures IsLive(d.index.primary, q.photoId) && d.index.primary[q.photoId].segmentId == Name(1)
  {
    hide Reaches, Name, Lines, Line;
    LastPhotoIsMember([p], q.photoId);
    assert Fresh(b, q.photoId);
    UploadReaches(crc, b, q, true);
    var c := Uploaded(crc, b, q, true);
    assert b.segs[0] + [q] == [p, q] && c.segs == [[p, q], []];
    DeleteReaches(crc, c, p.photoId, false);
    d := Deleted(c, p.photoId, false);
    assert c.segs[1] + [Deletion(p)] == [Deletion(p)] && d.segs == [[p, q], [Deletion(p)]];
    ReachesOnward(crc, b, c, d);
  }

  lemma OnlySecondKept(crc: Checksum, primary: Primary, segs: seq<seq<Photo>>, p: Photo, q: Photo)
    requires |segs| > 0 && segs[0] == [p, q] && p.photoId != q.photoId && !q.tombstone
    requires p.photoId !in primary && q.photoId in primary && primary[q.photoId].segmentId == Name(1)
    ensures CompactedSegment(crc, primary, segs, 0) == [q]
  {
    var ms := Located(crc, Name(1), segs[0], 0);
    var kept := Compacted(primary, Name(1), ms);
    LastLocated(crc, Name(1), segs[0], 0, q.photoId);
    assert LastPhoto([p, q], q.photoId) == Some(q);
    hide Located, Compacted, LastPhoto, Name, Last;
    CompactedSpec(primary, Name(1), ms);
    assert IsKept(primary, Name(1), ms, q);
    assert |kept| > 1 ==> Ids(kept)[0] != Ids(kept)[1];
    forall i | 0 <= i < |kept| ensures kept[i] == q {
      assert IsKept(primary, Name(1), ms, kept[i]);
      LastLocated(crc, Name(1), segs[0], 0, kept[i].photoId);
    }
  }

  lemma {:induction false} EscapeNeverShrinks(s: Bytes)
    ensures |Json.Escape(s)| >= |s|
  {
    if s != [] {
      assert |Json.EscapeChar(s[0])| >= 1;
      hide Json.EscapeChar;
      EscapeNeverShrinks(s[1..]);
    }
  }

  lemma {:induction false} MemberFits(keys: seq<Bytes>, m: Json.Object, k: Bytes)
    requires k in keys && forall key :: key in keys ==> key in m
    ensures |Json.PrintMembers(keys, m)| >= |Json.PrintMember(k, m[k])|
  {
    hide Json.PrintMember;
    if k != keys[0] { MemberFits(keys[1..], m, k); }
  }

  lemma TextFits(m: Json.Object, k: Bytes, text: Bytes)
    requires k in m && m[k] == Json.One(Json.Str(text))
    ensures |Json.Print(m)| >= |text|
  {
    hide Json.PrintMembers, Order.Sorted, Json.Escape;
    Order.SortedIsAscending(m.Keys);
    MemberFits(Order.Sorted(m.Keys), m, k);
    EscapeNeverShrinks(text);
  }

  /** For every photo there is another whose record is longer, so that the old offset of
      the run above points inside it. */
  lemma OffsetCanLandInside(crc: Checksum, p: Photo) returns (q: Photo)
    ensures p.photoId != q.photoId && p.contentHash != q.contentHash && q.tombstone == p.tombstone
    ensures |Line(crc, p)| < |Body(crc, q)|
  {
    var text := Line(crc, p) + "x";
    q := p.(photoId := p.photoId + "x", contentHash := p.contentHash + "x", uploadedAt := text);
    TextFits(Seal(crc, ToRecord(q)), "uploaded_at", text);
  }

  // --------------------------------------------------- a skipped segment

  /** A reachable state in which a pass that skips the first closed segment and compacts
      the second brings a deleted photo back: the tombstone is dropped, the record it
      hid is still there. */
  lemma SkippedSegmentResurrects(crc: Checksum, p: Photo) returns (s: Store)
    requires !p.tombstone
    ensures Reachable(crc, s) && s.op.Idle? && s.segs == [[p], [Deletion(p)], []] && s.index == EMPTY
    ensures var segs' := CompactedUpTo(crc, s.index.primary, s.segs, 2, {0});
            IsLive(PutAll(EMPTY, AllLocated(crc, segs', 0)).primary, p.photoId)
  {
    s := UploadedThenDeleted(crc, p, true);
    var segs' := CompactedUpTo(crc, map[], s.segs, 2, {0});
    NothingIndexedNothingKept(crc, s.segs, 1);
    assert CompactedUpTo(crc, map[], s.segs, 0, {0}) == s.segs == CompactedUpTo(crc, map[], s.segs, 1, {0});
    assert segs' == [[p], [], []];
    var id := p.photoId;
    assert Has(segs'[0], id) && !Has([], id);
    HomeIs(segs', id, 0);
    hide HomeOf, AllLocated, PutAll, Name, CompactedSegment, CompactedUpTo;
    LastOfFullReplay(crc, segs', id);
    PutAllIsLast(EMPTY, AllLocated(crc, segs', 0), id);
  }

  // ------------------------------------------------------- pending index updates

  /** A compaction keeps no record of a photo that is not in the index. */
  lemma UnindexedRecordIsDropped(primary: Primary, segment: string, ms: seq<PhotoMeta>, id: string)
    requires id !in primary
    ensures forall p :: p in Compacted(primary, segment, ms) ==> p.photoId != id
  {
    CompactedSpec(primary, segment, ms);
    hide Compacted;
    forall p | p in Compacted(primary, segment, ms) ensures p.photoId != id {
      assert IsKept(primary, segment, ms, p);
      LastIsMember(ms, p.photoId);
    }
  }

  lemma AppendedFirst(crc: Checksum, p: Photo) returns (s: Store)
    requires !p.tombstone
    ensures Reachable(crc, s) && s.segs == [[p]] && s.op == Appended(AppendedMeta(crc, INIT, p)) && s.index == EMPTY
    ensures s.pass.Resting? && s.mark.NoMark? && IsLive(After(s).primary, p.photoId)
  {
    hide Reaches, Name, Lines, Line;
    ReachesItself(crc, INIT);
    ReachesStep(crc, INIT, INIT, Stage(p.contentHash));
    var a := Do(crc, INIT, Stage(p.contentHash));
    ReachesStep(crc, INIT, a, Commit);
    var b := Do(crc, a, Commit);
    ReachesStep(crc, INIT, b, AppendUpload(p));
    s := Do(crc, b, AppendUpload(p));
    assert INIT.segs[0] + [p] == [p];
  }

  /** A run that stops between the append of an upload, which filled its segment, and the
      index update, with a pass about to look up the photo: the stale index does not know
      it, and the pass would drop the only record of a photo that is being shown next. */
  lemma UploadDroppedWhilePending(crc: Checksum, p: Photo) returns (s: Store)
    requires !p.tombstone
    ensures Reachable(crc, s) && s.segs == [[p], []] && s.op.Appended? && IsLive(After(s).primary, p.photoId)
    ensures s.pass.Checking? && s.pass.segment == 0 && s.pass.limit == 1 && s.pass.checked == 0
    ensures CompactedSegment(crc, s.index.primary, s.segs, 0) == []
    ensures p.photoId !in PutAll(EMPTY, AllLocated(crc, s.segs[0 := []], 0)).primary
  {
    var a := AppendedFirst(crc, p);
    s := RotatedAndRead(crc, a);
    assert s.segs == [[p], []];
    NothingIndexedNothingKept(crc, s.segs, 0);
    hide Reaches, CompactedSegment, PutAll, AllLocated, After;
    ReachesOnward(crc, INIT, a, s);
    assert s.segs[0 := []] == [[], []];
    NothingReplayed(crc, [[], []], p.photoId);
  }

  lemma RotatedAndRead(crc: Checksum, a: Store) returns (s: Store)
    requires |a.segs| == 1 && a.pass.Resting?
    ensures Reaches(crc, a, s) && s.segs == a.segs + [[]] && s.op == a.op && s.index == a.index
    ensures s.pass.Checking? && s.pass.segment == 0 && s.pass.limit == 1 && s.pass.checked == 0
  {
    hide Reaches, Name, Lines, Line, Scan, Fresh;
    ReachesItself(crc, a);
    ReachesStep(crc, a, a, Rotate);
    var b := Do(crc, a, Rotate);
    ReachesStep(crc, a, b, BeginPass);
    var c := Do(crc, b, BeginPass);
    ReachesStep(crc, a, c, ReadSegment);
    s := Do(crc, c, ReadSegment);
  }

  lemma NothingReplayed(crc: Checksum, segs: seq<seq<Photo>>, id: string)
    requires segs == [[], []]
    ensures id !in PutAll(EMPTY, AllLocated(crc, segs, 0)).primary
  {
    HomeIsNowhere(segs, id);
    hide HomeOf, AllLocated, PutAll;
    ReplayReads(crc, segs, id);
  }

  /** A run that stops between the tombstone of a delete, in a segment of its own, and the
      index update: a pass over both segments with the stale index keeps the photo and drops
      the tombstone, and a full replay shows the deleted photo again. */
  lemma DeleteUndoneWhilePending(crc: Checksum, p: Photo) returns (s: Store)
    requires !p.tombstone
    ensures Reachable(crc, s) && s.segs == [[p], [Deletion(p)], []] && s.op == Buried(p.photoId) && s.pass.Resting?
    ensures p.photoId !in After(s).primary
    ensures var segs' := CompactedUpTo(crc, s.index.primary, s.segs, 2, {});
            IsLive(PutAll(EMPTY, AllLocated(crc, segs', 0)).primary, p.photoId)
  {
    var a := UploadedAndFull(crc, p);
    s := BuriedAndFull(crc, a, p);
    hide Reaches;
    ReachesOnward(crc, INIT, a, s);
    OnlyTombstoneDropped(crc, s.index.primary, s.segs, p);
  }

  lemma UploadedAndFull(crc: Checksum, p: Photo) returns (a: Store)
    requires !p.tombstone
    ensures Reaches(crc, INIT, a) && a.segs == [[p], []] && a.op.Idle? && a.pass.Resting?
    ensures a.index.primary.Keys == {p.photoId}
    ensures a.index.primary[p.photoId].photo == p && LivesIn(a.index.primary, p.photoId, 0)
  {
    hide Reaches, Name, Lines, Line;
    assert INIT.segs[0] + [p] == [p];
    UploadReaches(crc, INIT, p, true);
    a := Uploaded(crc, INIT, p, true);
  }

  lemma BuriedAndFull(crc: Checksum, a: Store, p: Photo) returns (s: Store)
    requires a.segs == [[p], []] && a.op.Idle? && a.index.primary.Keys == {p.photoId}
    requires a.index.primary[p.photoId].photo == p
    ensures Reaches(crc, a, s) && s.segs == [[p], [Deletion(p)], []] && s.op == Buried(p.photoId) && s.pass == a.pass
    ensures s.index == a.index && p.photoId !in After(s).primary
  {
    hide Reaches, Name, Lines, Line, Unshared;
    ReachesItself(crc, a);
    ReachesStep(crc, a, a, AppendTombstone(p.photoId));
    var b := Do(crc, a, AppendTombstone(p.photoId));
    assert a.segs[1] + [Deletion(p)] == [Deletion(p)];
    ReachesStep(crc, a, b, Rotate);
    s := Do(crc, b, Rotate);
  }

  lemma OnlyTombstoneDropped(crc: Checksum, primary: Primary, segs: seq<seq<Photo>>, p: Photo)
    requires segs == [[p], [Deletion(p)], []] && !p.tombstone && LivesIn(primary, p.photoId, 0)
    ensures var segs' := CompactedUpTo(crc, primary, segs, 2, {});
            IsLive(PutAll(EMPTY, AllLocated(crc, segs', 0)).primary, p.photoId)
  {
    var id, segs' := p.photoId, CompactedUpTo(crc, primary, segs, 2, {});
    assert LastPhoto(segs[0], id) == Some(p) && LastPhoto(segs[1], id) == Some(Deletion(p)) && LastPhoto([], id).None?;
    hide *;
    LastCompacted(crc, primary, segs, 0, id);
    LastCompacted(crc, primary, segs, 1, id);
    CompactedUpToAt(crc, primary, segs, 2, {}, 0);
    CompactedUpToAt(crc, primary, segs, 2, {}, 1);
    CompactedUpToAt(crc, primary, segs, 2, {}, 2);
    ShownFirst(crc, segs', p);
  }

  /** A photo whose live record is in the first of three segments and nowhere behind is
      shown by a full replay. */
  lemma ShownFirst(crc: Checksum, segs: seq<seq<Photo>>, p: Photo)
    requires |segs| == 3 && !p.tombstone && LastPhoto(segs[0], p.photoId) == Some(p)
    requires LastPhoto(segs[1], p.photoId).None? && LastPhoto(segs[2], p.photoId).None?
    ensures IsLive(PutAll(EMPTY, AllLocated(crc, segs, 0)).primary, p.photoId)
  {
    hide HomeOf, AllLocated, PutAll, Name, LastPhoto;
    HomeIs(segs, p.photoId, 0);
    ReplayReads(crc, segs, p.photoId);
    FullReplayAgrees(crc, segs, p.photoId);
  }

  /** A run that stops between the append of an upload and the index update, with a
      snapshot that has read name and offset behind the record and is about to copy the
      index: a start-up from that snapshot misses the photo, a full replay has it. */
  lemma CopyMissesPending(crc: Checksum, p: Photo) returns (s: Store)
    requires !p.tombstone
    ensures Reachable(crc, s) && s.segs == [[p]] && s.op.Appended? && IsLive(After(s).primary, p.photoId)
    ensures s.mark == Placed(0, |Lines(crc, [p])|, 0) && Lists([], s.index.primary)
    ensures p.photoId !in LoadFrom(crc, s.segs, Snapshot(0, |Lines(crc, [p])|, [], 0)).primary
    ensures IsLive(LoadFrom(crc, s.segs, NoSnapshot).primary, p.photoId)
  {
    var a := AppendedFirst(crc, p);
    hide Reaches, Name, Lines, Line, Scan, Fresh, LoadFrom, HomeOf;
    ReachesStep(crc, INIT, a, ReadName);
    var b := Do(crc, a, ReadName);
    ReachesStep(crc, INIT, b, ReadOffset);
    s := Do(crc, b, ReadOffset);
    FirstNotLoaded(crc, s.segs, p);
  }

  lemma FirstNotLoaded(crc: Checksum, segs: seq<seq<Photo>>, p: Photo)
    requires segs == [[p]] && !p.tombstone
    ensures p.photoId !in LoadFrom(crc, segs, Snapshot(0, |Lines(crc, [p])|, [], 0)).primary
    ensures IsLive(LoadFrom(crc, segs, NoSnapshot).primary, p.photoId)
  {
    LinesOfOne(crc, p);
    OffsetInside(crc, p, p);
    assert LastPhoto(segs[0], p.photoId) == Some(p);
    HomeIs(segs, p.photoId, 0);
    PutNothing(EMPTY);
    hide PutAll, HomeOf, ReadsFrom, LoadFrom, LastPhoto, Name, Line, Lines, AllLocated;
    LoadedEntry(crc, segs, Snapshot(0, |Lines(crc, [p])|, [], 0), p.photoId);
    NothingToLoad(crc, segs);
    ReplayReads(crc, segs, p.photoId);
    FullReplayAgrees(crc, segs, p.photoId);
  }

  // --------------------------------------------- deleted photos after a replay

  /** After a replay the duplicate check knows the content of every record it read, of
      deleted photos as well: such content cannot be uploaded again. */
  lemma KnownHashAfterReplay(ms: seq<PhotoMeta>, h: string)
    ensures ContainsHash(PutAll(EMPTY, ms), h) <==> exists m :: m in ms && m.photo.contentHash == h
  {
    PutAllHashes(EMPTY, ms, h);
  }

  /** Deleting an entry, tombstoned or not, leaves every live photo its blob if and only
      if no other live photo has the same content. */
  lemma DeleteKeepsBlobsIff(s: Store, id: string)
    requires BlobInv(s) && s.op.Idle? && id in s.index.primary
    ensures var rest := Remove(s.index, id).primary;
            var blobs := s.blobs - {s.index.primary[id].photo.contentHash};
            (forall other :: IsLive(rest, other) ==> rest[other].photo.contentHash in blobs) <==>
            Unshared(s.index.primary, id)
  {
    var rest := Remove(s.index, id).primary;
    var h := s.index.primary[id].photo.contentHash;
    if forall other :: IsLive(rest, other) ==> rest[other].photo.contentHash in s.blobs - {h} {
      forall other | other in s.index.primary && other != id && IsLive(s.index.primary, other)
        ensures s.index.primary[other].photo.contentHash != h
      {
        assert IsLive(rest, other);
      }
    }
  }

  /** A run after which content is refused although no photo shows it: upload a photo,
      delete it, restart without a snapshot.  Before the restart the same upload would
      be accepted. */
  lemma DeletedContentIsRefused(crc: Checksum, p: Photo) returns (before: Store, after: Store)
    requires !p.tombstone
    ensures Reachable(crc, before) && before.op.Idle? && !ContainsHash(before.index, p.contentHash)
    ensures RestartSafe(before) && before.segs != [] && before.snapshot.NoSnapshot?
    ensures after == Do(crc, before, Restart) && Reachable(crc, after)
    ensures Live(after.index.primary) == map[] && ContainsHash(after.index, p.contentHash)
    ensures before.index.primary == map[] && p.photoId in after.index.primary
  {
    hide Reaches, Inv, Live, LoadFrom, Name, Lines, Line, Scan, CheckNext, FirstSeen, AppendTo, AppendedMeta, Fresh;
    before := UploadedThenDeleted(crc, p, false);
    after := Do(crc, before, Restart);
    ReachesStep(crc, INIT, before, Restart);
    ReplayKnowsDeletion(crc, before.segs, p);
    ReachableInv(crc, before);
    RestartShows(crc, before);
    LiveOfNothing();
  }

  /** The replay of a deleted photo's records puts its hash into the index. */
  lemma ReplayKnowsDeletion(crc: Checksum, segs: seq<seq<Photo>>, p: Photo)
    requires segs == [[p, Deletion(p)]]
    ensures ContainsHash(LoadFrom(crc, segs, NoSnapshot), p.contentHash)
    ensures p.photoId in LoadFrom(crc, segs, NoSnapshot).primary
  {
    hide Name, PutAll, AllLocated, HomeOf, Agrees, LastPhoto;
    LoadCovers(crc, segs, NoSnapshot);
    ReplayReads(crc, segs, p.photoId);
    FullReplayAgrees(crc, segs, p.photoId);
    AgreesWithDeletion(segs, LoadFrom(crc, segs, NoSnapshot).primary, p);
  }

  lemma LiveOfNothing()
    ensures Live(map[]) == map[]
  {
  }

  lemma AgreesWithDeletion(segs: seq<seq<Photo>>, primary: Primary, p: Photo)
    requires segs == [[p, Deletion(p)]] && Agrees(segs, primary, p.photoId)
    requires HomeOf(segs, p.photoId).At? <==> p.photoId in primary
    ensures p.photoId in primary && primary[p.photoId].photo.contentHash == p.contentHash
  {
    assert LastPhoto(segs[0], p.photoId) == Some(Deletion(p));
    HomeIs(segs, p.photoId, 0);
    hide HomeOf, Name;
  }

  lemma UploadedThenDeleted(crc: Checksum, p: Photo, rotate: bool) returns (s: Store)
    requires !p.tombstone
    ensures Reaches(crc, INIT, s) && s.index == EMPTY && s.snapshot.NoSnapshot?
    ensures s.segs == if rotate then [[p], [Deletion(p)], []] else [[p, Deletion(p)]]
    ensures s.op.Idle? && s.pass.Resting? && s.mark.NoMark? && !s.sharedDelete
  {
    hide Reaches, Name, Lines, Line;
    var a := Uploaded(crc, INIT, p, rotate);
    assert INIT.segs[0] + [p] == [p];
    UploadReaches(crc, INIT, p, rotate);
    s := Deleted(a, p.photoId, rotate);
    assert [] + [Deletion(p)] == [Deletion(p)] && [p] + [Deletion(p)] == [p, Deletion(p)];
    DeleteReaches(crc, a, p.photoId, rotate);
    ReachesOnward(crc, INIT, a, s);
  }

  // ------------------------------------------------------- a blob is lost

  /** A run after which a live photo has no blob: upload a photo, delete it, upload the
      same content again, restart without a snapshot, and delete the first photo, which
      the replay has put back as a tombstone, once more. */
  lemma DeletedTwiceLosesBlob(crc: Checksum, p: Photo, q: Photo) returns (s: Store)
    requires !p.tombstone && !q.tombstone && p.photoId != q.photoId && p.contentHash == q.contentHash
    ensures Reachable(crc, s) && s.op.Idle? && s.sharedDelete
    ensures IsLive(s.index.primary, q.photoId) && s.index.primary[q.photoId].photo == q && q.contentHash !in s.blobs
  {
    hide Reaches, Name, Lines, Line, LoadFrom, HomeOf;
    var a := UploadedThenDeleted(crc, p, false);
    NotAmong(p, q);
    UploadReaches(crc, a, q, false);
    var b := Uploaded(crc, a, q, false);
    assert a.segs[0] + [q] == [p, Deletion(p), q] && b.segs == [[p, Deletion(p), q]];
    ReachesStep(crc, a, b, Restart);
    var c := Do(crc, b, Restart);
    BothReplayed(crc, c.segs, p, q);
    DeleteReaches(crc, c, p.photoId, false);
    s := Deleted(c, p.photoId, false);
    ReachesOnward(crc, INIT, a, c);
    ReachesOnward(crc, INIT, c, s);
  }

  lemma NotAmong(p: Photo, q: Photo)
    requires p.photoId != q.photoId
    ensures LastPhoto([p, Deletion(p)], q.photoId).None?
  {
    LastPhotoIsMember([p, Deletion(p)], q.photoId);
  }

  lemma BothReplayed(crc: Checksum, segs: seq<seq<Photo>>, p: Photo, q: Photo)
    requires segs == [[p, Deletion(p), q]] && p.photoId != q.photoId && !q.tombstone
    ensures var primary := LoadFrom(crc, segs, NoSnapshot).primary;
            && p.photoId in primary && primary[p.photoId].photo == Deletion(p)
            && q.photoId in primary && primary[q.photoId].photo == q
  {
    var ps := segs[0];
    assert ps[..2] == [p, Deletion(p)];
    assert LastPhoto(ps, q.photoId) == Some(q) && LastPhoto(ps, p.photoId) == Some(Deletion(p));
    HomeIs(segs, p.photoId, 0);
    HomeIs(segs, q.photoId, 0);
    hide HomeOf, AllLocated, PutAll, Name;
    ReplayReads(crc, segs, p.photoId);
    FullReplayAgrees(crc, segs, p.photoId);
    ReplayReads(crc, segs, q.photoId);
    FullReplayAgrees(crc, segs, q.photoId);
  }
}
