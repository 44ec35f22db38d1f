/** Whole operations as runs of the engine: what an upload, a thumbnail update, a
    delete, a snapshot and a compaction pass come to when nothing interrupts them. */
module Operations {
  import opened Basics
  import opened Models
  import opened Names
  import opened LogFormat
  import opened LogReader
  import opened LogReplay
  import opened Index
  import opened Compaction
  import opened Engine
  import opened LogQueries

  lemma ReachesItself(crc: Checksum, s: Store)
    ensures Reaches(crc, s, s)
  {
    assert IsRun(crc, s, [], s);
  }

  lemma {:induction false} RunConcat(crc: Checksum, a: Store, xs: seq<Step>, b: Store, ys: seq<Step>, c: Store)
    requires IsRun(crc, a, xs, b) && IsRun(crc, b, ys, c)
    ensures IsRun(crc, a, xs + ys, c)
    decreases |xs|
  {
    hide Do, Enabled;
    if xs == [] {
      assert xs + ys == ys;
    } else {
      assert (xs + ys)[0] == xs[0] && (xs + ys)[1..] == xs[1..] + ys;
      RunConcat(crc, Do(crc, a, xs[0]), xs[1..], b, ys, c);
    }
  }

  lemma ReachesOnward(crc: Checksum, a: Store, b: Store, c: Store)
    requires Reaches(crc, a, b) && Reaches(crc, b, c)
    ensures Reaches(crc, a, c)
  {
    hide IsRun;
    var xs :| IsRun(crc, a, xs, b);
    var ys :| IsRun(crc, b, ys, c);
    RunConcat(crc, a, xs, b, ys, c);
  }

  /** One more step. */
  lemma ReachesStep(crc: Checksum, a: Store, b: Store, step: Step)
    requires Reaches(crc, a, b) && b.segs != [] && Enabled(crc, b, step)
    ensures Reaches(crc, a, Do(crc, b, step))
  {
    var c := Do(crc, b, step);
    assert IsRun(crc, b, [step], c) by {
      assert [step][1..] == [];
      hide Do, Enabled;
    }
    hide IsRun, Do;
    ReachesOnward(crc, a, b, c);
  }

  // ------------------------------------------------------------------ the writer

  /** `append` with its index update and the rotation it may cause. */
  function WithRotation(s: Store, rotate: bool): Store {
    if rotate then s.(segs := s.segs + [[]]) else s
  }

  function Uploaded(crc: Checksum, s: Store, p: Photo, rotate: bool): Store
    requires s.segs != []
  {
    WithRotation(s, rotate).(
      segs := WithRotation(s.(segs := AppendTo(s.segs, p)), rotate).segs,
      blobs := s.blobs + {p.contentHash},
      index := Put(s.index, AppendedMeta(crc, s, p)))
  }

  lemma UploadReaches(crc: Checksum, s: Store, p: Photo, rotate: bool)
    requires s.segs != [] && s.op.Idle? && !ContainsHash(s.index, p.contentHash)
    requires !p.tombstone && Fresh(s, p.photoId)
    requires rotate ==> |s.segs| < MAX_COUNTER
    ensures Reaches(crc, s, Uploaded(crc, s, p, rotate))
  {
    hide Reaches, Lines, Line, Name;
    ReachesItself(crc, s);
    ReachesStep(crc, s, s, Stage(p.contentHash));
    var a := Do(crc, s, Stage(p.contentHash));
    ReachesStep(crc, s, a, Commit);
    var b := Do(crc, a, Commit);
    assert Fresh(b, p.photoId);
    ReachesStep(crc, s, b, AppendUpload(p));
    var c := Do(crc, b, AppendUpload(p));
    AppendEnds(crc, s, c, rotate);
  }

  /** After an append: rotate if asked to, then update the index. */
  lemma AppendEnds(crc: Checksum, s: Store, c: Store, rotate: bool)
    requires Reaches(crc, s, c) && c.segs != [] && c.op.Appended?
    requires rotate ==> |c.segs| < MAX_COUNTER
    ensures Reaches(crc, s, WithRotation(c, rotate).(index := Put(c.index, c.op.m), op := Idle))
  {
    hide Reaches, Lines, Line, Name;
    if rotate { ReachesStep(crc, s, c, Rotate); }
    ReachesStep(crc, s, WithRotation(c, rotate), IndexPut);
  }

  function Thumbnailed(crc: Checksum, s: Store, id: string, paths: seq<Bytes>, rotate: bool): Store
    requires s.segs != [] && id in s.index.primary
  {
    var p := s.index.primary[id].photo.(thumbnailPaths := paths);
    WithRotation(s.(segs := AppendTo(s.segs, p)), rotate).(index := Put(s.index, AppendedMeta(crc, s, p)))
  }

  lemma ThumbnailReaches(crc: Checksum, s: Store, id: string, paths: seq<Bytes>, rotate: bool)
    requires s.segs != [] && s.op.Idle? && id in s.index.primary
    requires rotate ==> |s.segs| < MAX_COUNTER
    ensures Reaches(crc, s, Thumbnailed(crc, s, id, paths, rotate))
  {
    hide Reaches, Lines, Line, Name;
    ReachesItself(crc, s);
    ReachesStep(crc, s, s, AppendThumbnail(id, paths));
    AppendEnds(crc, s, Do(crc, s, AppendThumbnail(id, paths)), rotate);
  }

  function Deleted(s: Store, id: string, rotate: bool): Store
    requires s.segs != [] && id in s.index.primary
  {
    var p := s.index.primary[id].photo.(tombstone := true);
    WithRotation(s.(segs := AppendTo(s.segs, p)), rotate).(
      index := Remove(s.index, id), blobs := s.blobs - {p.contentHash},
      sharedDelete := s.sharedDelete || !Unshared(s.index.primary, id))
  }

  lemma DeleteReaches(crc: Checksum, s: Store, id: string, rotate: bool)
    requires s.segs != [] && s.op.Idle? && id in s.index.primary
    requires rotate ==> |s.segs| < MAX_COUNTER
    ensures Reaches(crc, s, Deleted(s, id, rotate))
  {
    hide Reaches, Lines, Line, Name;
    ReachesItself(crc, s);
    ReachesStep(crc, s, s, AppendTombstone(id));
    var a := Do(crc, s, AppendTombstone(id));
    if rotate { ReachesStep(crc, s, a, Rotate); }
    var b := WithRotation(a, rotate);
    ReachesStep(crc, s, b, IndexRemove);
    ReachesStep(crc, s, Do(crc, b, IndexRemove), RemoveBlob);
  }

  // ------------------------------------------------------------------ snapshots

  function Snapshotted(crc: Checksum, s: Store, records: seq<PhotoMeta>): Store
    requires s.segs != []
  {
    s.(snapshot := Snapshot(Active(s), |Lines(crc, s.segs[Active(s)])|, records, 0), mark := NoMark)
  }

  lemma SnapshotReaches(crc: Checksum, s: Store, records: seq<PhotoMeta>)
    requires s.segs != [] && !Pending(s) && Lists(records, s.index.primary)
    ensures Reaches(crc, s, Snapshotted(crc, s, records))
  {
    hide Reaches, Lines, Line, Name, Lists;
    ReachesItself(crc, s);
    ReachesStep(crc, s, s, ReadName);
    var a := Do(crc, s, ReadName);
    ReachesStep(crc, s, a, ReadOffset);
    var b := Do(crc, a, ReadOffset);
    ReachesStep(crc, s, b, CopyIndex(records));
    ReachesStep(crc, s, Do(crc, b, CopyIndex(records)), SaveSnapshot);
  }

  // ----------------------------------------------------------------- compaction

  function CompactedSegment(crc: Checksum, primary: Primary, segs: seq<seq<Photo>>, j: nat): seq<Photo>
    requires j < |segs|
  {
    Compacted(primary, Name(j + 1), Located(crc, Name(j + 1), segs[j], 0))
  }

  /** The first `k` segments compacted, but for those whose compaction failed. */
  function CompactedUpTo(crc: Checksum, primary: Primary, segs: seq<seq<Photo>>, k: nat, skipped: set<nat>)
    : (r: seq<seq<Photo>>)
    requires k <= |segs|
    ensures |r| == |segs| && forall j :: k <= j < |segs| ==> r[j] == segs[j]
  {
    if k == 0 then segs
    else
      var r := CompactedUpTo(crc, primary, segs, k - 1, skipped);
      if k - 1 in skipped then r else r[k - 1 := CompactedSegment(crc, primary, segs, k - 1)]
  }

  function MidPass(crc: Checksum, s: Store, next: nat, limit: nat, checked: nat, skipped: set<nat>): Store
    requires next < limit <= |s.segs|
    requires checked <= |FirstSeen(Located(crc, Name(next + 1), s.segs[next], 0))|
  {
    var ms := Located(crc, Name(next + 1), s.segs[next], 0);
    var kept := Kept(s.index.primary, Name(next + 1), ms, FirstSeen(ms)[..checked]);
    s.(pass := Checking(next, limit, ms, checked, kept, skipped))
  }

  lemma CheckExtendsKept(
      primary: Primary, segment: nat, limit: nat, ms: seq<PhotoMeta>, checked: nat, skipped: set<nat>)
    requires checked < |FirstSeen(ms)|
    ensures var name := Name(segment + 1);
            CheckNext(Checking(segment, limit, ms, checked, Kept(primary, name, ms, FirstSeen(ms)[..checked]), skipped),
                      primary) ==
            Checking(segment, limit, ms, checked + 1, Kept(primary, name, ms, FirstSeen(ms)[..checked + 1]), skipped)
  {
    hide FirstSeen, Name;
    var ids := FirstSeen(ms)[..checked + 1];
    assert ids[..|ids| - 1] == FirstSeen(ms)[..checked] && ids[|ids| - 1] == FirstSeen(ms)[checked];
  }

  lemma {:induction false} ChecksReach(
      crc: Checksum, a: Store, s: Store, next: nat, limit: nat, checked: nat, skipped: set<nat>)
    requires next < limit < |s.segs| && !Pending(s)
    requires checked <= |FirstSeen(Located(crc, Name(next + 1), s.segs[next], 0))|
    requires Reaches(crc, a, MidPass(crc, s, next, limit, checked, skipped))
    ensures var all := |FirstSeen(Located(crc, Name(next + 1), s.segs[next], 0))|;
            Reaches(crc, a, MidPass(crc, s, next, limit, all, skipped))
    decreases |FirstSeen(Located(crc, Name(next + 1), s.segs[next], 0))| - checked
  {
    hide Reaches, Name, Located, FirstSeen, Kept, CheckNext;
    var ms := Located(crc, Name(next + 1), s.segs[next], 0);
    if checked < |FirstSeen(ms)| {
      CheckExtendsKept(s.index.primary, next, limit, ms, checked, skipped);
      ReachesStep(crc, a, MidPass(crc, s, next, limit, checked, skipped), CheckPhoto);
      ChecksReach(crc, a, s, next, limit, checked + 1, skipped);
    }
  }

  /** No skipped segment has a record of a photo whose tombstone is in segment `j`. */
  ghost predicate SoundAt(segs: seq<seq<Photo>>, j: nat, skipped: set<nat>) {
    forall u: nat, id | u in skipped && u < j && u < |segs| && BuriedIn(segs, j, id) :: LastPhoto(segs[u], id).None?
  }

  /** One segment: read it, look up all its photos, rename. */
  lemma SegmentReaches(crc: Checksum, a: Store, s: Store, next: nat, limit: nat, skipped: set<nat>)
    requires next < limit < |s.segs| && !Pending(s) && SoundAt(s.segs, next, skipped)
    requires Reaches(crc, a, s.(pass := Between(next, limit, skipped)))
    ensures Reaches(crc, a, s.(segs := s.segs[next := CompactedSegment(crc, s.index.primary, s.segs, next)],
                               pass := Between(next + 1, limit, skipped),
                               snapshot := BumpSnapshot(s.snapshot, next), mark := BumpMark(s.mark, next)))
  {
    hide Reaches, Name, Located, FirstSeen, Kept, Lines, Scan, BuriedIn, LastPhoto;
    var ms := Located(crc, Name(next + 1), s.segs[next], 0);
    ScanLines(crc, Name(next + 1), s.segs[next], 0);
    NothingKeptYet(s.index.primary, Name(next + 1), ms);
    ReachesStep(crc, a, s.(pass := Between(next, limit, skipped)), ReadSegment);
    ChecksReach(crc, a, s, next, limit, 0, skipped);
    assert FirstSeen(ms)[..|FirstSeen(ms)|] == FirstSeen(ms);
    assert RenameSound(MidPass(crc, s, next, limit, |FirstSeen(ms)|, skipped));
    ReachesStep(crc, a, MidPass(crc, s, next, limit, |FirstSeen(ms)|, skipped), RenameSegment);
  }

  lemma NothingKeptYet(primary: Primary, segment: string, ms: seq<PhotoMeta>)
    ensures Kept(primary, segment, ms, FirstSeen(ms)[..0]) == []
  {
  }

  /** A snapshot, or one in progress, after the segments below `k` were rewritten. */
  function BumpedSnapshot(sn: Snapshot, k: nat, skipped: set<nat>): Snapshot {
    if k == 0 then sn
    else if k - 1 in skipped then BumpedSnapshot(sn, k - 1, skipped)
    else BumpSnapshot(BumpedSnapshot(sn, k - 1, skipped), k - 1)
  }

  function BumpedMark(m: Mark, k: nat, skipped: set<nat>): Mark {
    if k == 0 then m
    else if k - 1 in skipped then BumpedMark(m, k - 1, skipped)
    else BumpMark(BumpedMark(m, k - 1, skipped), k - 1)
  }

  function SkippedBelow(skipped: set<nat>, k: nat): set<nat> {
    set u | u in skipped && u < k
  }

  /** The state in a pass after `k` of its segments. */
  function PassAt(crc: Checksum, s: Store, k: nat, limit: nat, skipped: set<nat>): Store
    requires k <= limit <= |s.segs|
  {
    s.(segs := CompactedUpTo(crc, s.index.primary, s.segs, k, skipped),
       pass := Between(k, limit, SkippedBelow(skipped, k)),
       snapshot := BumpedSnapshot(s.snapshot, k, skipped), mark := BumpedMark(s.mark, k, skipped))
  }

  /** The pass drops no tombstone of a photo that a segment skipped before still has. */
  ghost predicate SkipSound(segs: seq<seq<Photo>>, limit: nat, skipped: set<nat>) {
    forall j: nat | j < limit && j !in skipped :: SoundAt(segs, j, skipped)
  }

  /** What the pass did before segment `j` does not matter for what is sound there. */
  lemma SoundMidPass(crc: Checksum, primary: Primary, segs: seq<seq<Photo>>, j: nat, skipped: set<nat>)
    requires j < |segs| && SoundAt(segs, j, skipped)
    ensures SoundAt(CompactedUpTo(crc, primary, segs, j, skipped), j, SkippedBelow(skipped, j))
  {
    var segs' := CompactedUpTo(crc, primary, segs, j, skipped);
    hide HomeOf, LastPhoto, CompactedUpTo, CompactedSegment;
    forall u: nat, id | u in SkippedBelow(skipped, j) && u < j && u < |segs'| && BuriedIn(segs', j, id)
      ensures LastPhoto(segs'[u], id).None?
    {
      CompactedUpToAt(crc, primary, segs, j, skipped, u);
      SameBehind(segs, segs', j, id);
    }
  }

  lemma SameBehind(segs: seq<seq<Photo>>, segs': seq<seq<Photo>>, j: nat, id: string)
    requires j < |segs| == |segs'| && (forall u :: j <= u < |segs| ==> segs'[u] == segs[u]) && BuriedIn(segs', j, id)
    ensures BuriedIn(segs, j, id)
  {
    hide HomeOf, LastPhoto;
    HomeSpec(segs', id);
    assert forall u: nat | j < u < |segs| :: !Has(segs'[u], id);
    HomeIs(segs, id, j);
  }

  lemma {:induction false} CompactedUpToAt(
      crc: Checksum, primary: Primary, segs: seq<seq<Photo>>, k: nat, skipped: set<nat>, u: nat)
    requires k <= |segs| && u < |segs|
    ensures CompactedUpTo(crc, primary, segs, k, skipped)[u] ==
            if u < k && u !in skipped then CompactedSegment(crc, primary, segs, u) else segs[u]
  {
    hide CompactedSegment;
    if k > 0 { CompactedUpToAt(crc, primary, segs, k - 1, skipped, u); }
  }

  lemma {:induction false} PassReaches(crc: Checksum, s: Store, k: nat, limit: nat, skipped: set<nat>)
    requires s.segs != [] && k <= limit == Active(s) && !Pending(s) && s.pass.Resting?
    requires SkipSound(s.segs, limit, skipped)
    ensures Reaches(crc, s, PassAt(crc, s, k, limit, skipped))
    decreases k
  {
    hide Reaches, CompactedSegment, SoundAt;
    if k == 0 {
      ReachesItself(crc, s);
      ReachesStep(crc, s, s, BeginPass);
      assert SkippedBelow(skipped, 0) == {};
    } else {
      PassReaches(crc, s, k - 1, limit, skipped);
      var mid, below := PassAt(crc, s, k - 1, limit, skipped), SkippedBelow(skipped, k - 1);
      if k - 1 in skipped {
        ReachesStep(crc, s, mid, SkipSegment);
        assert SkippedBelow(skipped, k) == below + {k - 1};
      } else {
        SoundMidPass(crc, s.index.primary, s.segs, k - 1, skipped);
        SegmentReaches(crc, s, mid, k - 1, limit, below);
        SegmentUntouched(crc, s, k - 1, skipped);
        assert SkippedBelow(skipped, k) == below;
      }
    }
  }

  lemma SegmentUntouched(crc: Checksum, s: Store, j: nat, skipped: set<nat>)
    requires j < |s.segs|
    ensures CompactedSegment(crc, s.index.primary, CompactedUpTo(crc, s.index.primary, s.segs, j, skipped), j) ==
            CompactedSegment(crc, s.index.primary, s.segs, j)
  {
    hide Compacted, Located, Name;
  }

  /** A complete pass, which may skip segments, with the snapshot that ends it. */
  function FullyCompacted(crc: Checksum, s: Store, skipped: set<nat>, records: seq<PhotoMeta>): Store
    requires s.segs != []
  {
    Snapshotted(crc, s.(segs := CompactedUpTo(crc, s.index.primary, s.segs, Active(s), skipped)), records)
  }

  lemma CompactionReaches(crc: Checksum, s: Store, skipped: set<nat>, records: seq<PhotoMeta>)
    requires s.segs != [] && !Pending(s) && s.pass.Resting? && Lists(records, s.index.primary)
    requires SkipSound(s.segs, Active(s), skipped)
    ensures Reaches(crc, s, FullyCompacted(crc, s, skipped, records))
  {
    hide Reaches, Lists, CompactedUpTo, Lines, SkipSound;
    var limit := Active(s);
    PassReaches(crc, s, limit, limit, skipped);
    var done := PassAt(crc, s, limit, limit, skipped);
    ReachesStep(crc, s, done, EndPass);
    var rest := Do(crc, done, EndPass);
    SnapshotReaches(crc, rest, records);
    ReachesOnward(crc, s, rest, Snapshotted(crc, rest, records));
    assert Snapshotted(crc, rest, records) == FullyCompacted(crc, s, skipped, records);
  }

  lemma NothingSkippedIsSound(segs: seq<seq<Photo>>, limit: nat)
    ensures SkipSound(segs, limit, {})
  {
  }
}
