/** The engine's main theorems: in every reachable state, whatever the interleaving of
    writer, snapshot, compaction and crashes, a restart shows the photos that memory
    shows, and every live photo has its blob. */
module EngineTheorems {
  import opened Basics
  import opened Models
  import opened Names
  import opened LogFormat
  import opened LogReader
  import opened LogReplay
  import opened Index
  import opened Compaction
  import opened Engine
  import opened LogQueries
  import opened EngineInvariant
  import opened TornTail

  // ---------------------------------------------------------------- the index

  lemma AgreesOnlyReads(segs: seq<seq<Photo>>, a: Primary, b: Primary, id: string)
    requires Agrees(segs, a, id)
    requires id in a <==> id in b
    requires id in a ==> a[id] == b[id]
    ensures Agrees(segs, b, id)
  {
    hide HomeOf, Name;
  }

  /** An appended record and its index update agree with the log. */
  lemma AppendKeepsAgreement(s: Store, p: Photo, primary: Primary)
    requires s.segs != [] && forall id :: Agrees(s.segs, s.index.primary, id)
    requires forall id :: id != p.photoId ==>
               (id in primary <==> id in s.index.primary) && (id in primary ==> primary[id] == s.index.primary[id])
    requires if p.photoId in primary
             then primary[p.photoId].photo == p && primary[p.photoId].segmentId == Name(|s.segs|)
             else p.tombstone
    ensures forall id :: Agrees(AppendTo(s.segs, p), primary, id)
  {
    hide HomeOf, Name, AppendTo;
    forall id ensures Agrees(AppendTo(s.segs, p), primary, id) {
      HomeAfterAppend(s.segs, p, id);
      if id != p.photoId {
        AgreesOnlyReads(s.segs, s.index.primary, primary, id);
        AppendAgrees(s.segs, p, primary, id);
      }
    }
  }

  /** What start-up loads agrees with the log on every photo, if no segment from the
      snapshot's watermark on was rewritten. */
  lemma LoadAgrees(crc: Checksum, segs: seq<seq<Photo>>, sn: Snapshot, id: string)
    requires SnapshotInv(crc, segs, sn) && (sn.Snapshot? ==> sn.rewritten <= sn.segment)
    ensures Agrees(segs, LoadFrom(crc, segs, sn).primary, id)
  {
    hide HomeOf, Name, TailFrom, AllLocated, PutAll;
    match sn
    case NoSnapshot => FullReplayAgrees(crc, segs, id);
    case Snapshot(w, off, records, _) =>
      var before := PutAll(EMPTY, records);
      LastOfTail(crc, segs, w, off, id);
      PutAllIsLast(before, TailFrom(crc, segs, w, off), id);
      if Last(TailFrom(crc, segs, w, off), id).None? {
        AgreesOnlyReads(segs, before.primary, LoadFrom(crc, segs, sn).primary, id);
      }
  }

  /** The entry start-up leaves for a photo: the log's last record, or what the snapshot
      has if the replay does not read that record. */
  lemma LoadedEntry(crc: Checksum, segs: seq<seq<Photo>>, sn: Snapshot, id: string)
    requires sn.Snapshot? && sn.segment < |segs|
    ensures var past, loaded := PutAll(EMPTY, sn.records).primary, LoadFrom(crc, segs, sn).primary;
            var home := HomeOf(segs, id);
            if Unread(crc, segs, sn.segment, sn.offset, id)
            then (id in loaded <==> id in past) && (id in loaded ==> loaded[id] == past[id])
            else
              && home.At? && id in loaded
              && loaded[id].photo == home.photo && loaded[id].segmentId == Name(home.segment + 1)
  {
    hide HomeOf, Name, TailFrom, AllLocated, PutAll, Unread;
    TailReads(crc, segs, sn.segment, sn.offset, id);
    LastOfTail(crc, segs, sn.segment, sn.offset, id);
    PutAllIsLast(PutAll(EMPTY, sn.records), TailFrom(crc, segs, sn.segment, sn.offset), id);
  }

  /** The snapshot agrees with the log on every photo whose last record is before the
      watermark's segment, and on all it covers if that was not rewritten. */
  lemma PastAgrees(crc: Checksum, segs: seq<seq<Photo>>, sn: Snapshot, id: string)
    requires SnapshotInv(crc, segs, sn) && sn.Snapshot? && Unread(crc, segs, sn.segment, sn.offset, id)
    requires sn.rewritten <= sn.segment || (HomeOf(segs, id).At? && HomeOf(segs, id).segment < sn.segment)
    ensures Agrees(segs, PutAll(EMPTY, sn.records).primary, id)
  {
    hide HomeOf, Agrees, TailFrom, Last, PutAll, Unread, AtBoundary;
    TailReads(crc, segs, sn.segment, sn.offset, id);
  }

  lemma HomeIsMember(segs: seq<seq<Photo>>, id: string)
    ensures var home := HomeOf(segs, id);
            home.At? ==> home.segment < |segs| && home.photo in segs[home.segment] && home.photo.photoId == id
  {
    hide HomeOf, LastPhoto;
    HomeSpec(segs, id);
    if HomeOf(segs, id).At? { LastPhotoIsMember(segs[HomeOf(segs, id).segment], id); }
  }

  lemma UsableMeans(crc: Checksum, segs: seq<seq<Photo>>, sn: Snapshot, id: string)
    requires Usable(crc, segs, sn) && sn.Snapshot?
    ensures sn.segment < |segs|
    ensures Restores(crc, segs, sn.segment, sn.offset, PutAll(EMPTY, sn.records).primary, id)
  {
    hide Restores, PutAll;
  }

  /** A deleted photo with its tombstone out of the replay's reach is as the log has it. */
  lemma BuriedAgrees(crc: Checksum, segs: seq<seq<Photo>>, sn: Snapshot, id: string)
    requires SnapshotInv(crc, segs, sn) && sn.Snapshot? && sn.rewritten > sn.segment
    requires BuriedIn(segs, sn.segment, id) && Unread(crc, segs, sn.segment, sn.offset, id)
    ensures Agrees(segs, PutAll(EMPTY, sn.records).primary, id)
  {
    hide HomeOf, Below, Covers, Agrees, PutAll, ReadsFrom;
  }

  /** A usable snapshot, though the segments behind it may have been rewritten, loads an
      index that agrees with the log on every photo. */
  lemma UsableAgrees(crc: Checksum, segs: seq<seq<Photo>>, sn: Snapshot, id: string)
    requires SnapshotInv(crc, segs, sn) && Usable(crc, segs, sn)
    ensures Agrees(segs, LoadFrom(crc, segs, sn).primary, id)
  {
    hide *;
    match sn
    case NoSnapshot =>
      NothingToLoad(crc, segs);
      FullReplayAgrees(crc, segs, id);
    case Snapshot(w, off, records, rewritten) =>
      UsableMeans(crc, segs, sn, id);
      if !Unread(crc, segs, w, off, id) {
        ReadAgrees(crc, segs, sn, id);
      } else if rewritten <= w || (HomeOf(segs, id).At? && HomeOf(segs, id).segment < w) {
        PastAgrees(crc, segs, sn, id);
        KeptAgrees(crc, segs, sn, id);
      } else if BuriedIn(segs, w, id) {
        BuriedAgrees(crc, segs, sn, id);
        KeptAgrees(crc, segs, sn, id);
      } else {
        NotBuried(segs, w, id);
        RestoredAgrees(crc, segs, sn, id);
      }
  }

  lemma NotBuried(segs: seq<seq<Photo>>, w: nat, id: string)
    requires !BuriedIn(segs, w, id)
    ensures HomeOf(segs, id).At? && HomeOf(segs, id).segment == w ==> !HomeOf(segs, id).photo.tombstone
  {
    hide HomeOf;
  }

  lemma NothingToLoad(crc: Checksum, segs: seq<seq<Photo>>)
    ensures LoadFrom(crc, segs, NoSnapshot) == PutAll(EMPTY, AllLocated(crc, segs, 0))
  {
  }

  lemma ReadAgrees(crc: Checksum, segs: seq<seq<Photo>>, sn: Snapshot, id: string)
    requires sn.Snapshot? && sn.segment < |segs| && !Unread(crc, segs, sn.segment, sn.offset, id)
    ensures Agrees(segs, LoadFrom(crc, segs, sn).primary, id)
  {
    hide HomeOf, Name, LoadFrom, Unread, PutAll;
    LoadedEntry(crc, segs, sn, id);
  }

  lemma KeptAgrees(crc: Checksum, segs: seq<seq<Photo>>, sn: Snapshot, id: string)
    requires sn.Snapshot? && sn.segment < |segs| && Unread(crc, segs, sn.segment, sn.offset, id)
    requires Agrees(segs, PutAll(EMPTY, sn.records).primary, id)
    ensures Agrees(segs, LoadFrom(crc, segs, sn).primary, id)
  {
    hide HomeOf, Name, LoadFrom, Unread, PutAll;
    LoadedEntry(crc, segs, sn, id);
  }

  lemma RestoredAgrees(crc: Checksum, segs: seq<seq<Photo>>, sn: Snapshot, id: string)
    requires sn.Snapshot? && sn.segment < |segs| && Unread(crc, segs, sn.segment, sn.offset, id)
    requires Restores(crc, segs, sn.segment, sn.offset, PutAll(EMPTY, sn.records).primary, id)
    requires HomeOf(segs, id).At? ==> HomeOf(segs, id).segment >= sn.segment
    requires HomeOf(segs, id).At? && HomeOf(segs, id).segment == sn.segment ==> !HomeOf(segs, id).photo.tombstone
    ensures Agrees(segs, LoadFrom(crc, segs, sn).primary, id)
  {
    hide HomeOf, Name, LoadFrom, PutAll, ReadsFrom;
    LoadedEntry(crc, segs, sn, id);
  }

  /** `Restores` is, photo by photo, what a restart needs. */
  lemma RestoresIff(crc: Checksum, segs: seq<seq<Photo>>, sn: Snapshot, memory: Primary, id: string)
    requires SnapshotInv(crc, segs, sn) && sn.Snapshot? && Agrees(segs, memory, id)
    ensures LiveAt(LoadFrom(crc, segs, sn).primary, id) == LiveAt(memory, id) <==>
            Restores(crc, segs, sn.segment, sn.offset, PutAll(EMPTY, sn.records).primary, id)
  {
    hide HomeOf, Name, TailFrom, AllLocated, PutAll, LoadFrom, Covers, Below, ReadsFrom, AtBoundary;
    LoadedEntry(crc, segs, sn, id);
    if Unread(crc, segs, sn.segment, sn.offset, id) && HomeOf(segs, id).At? && HomeOf(segs, id).segment < sn.segment {
      PastAgrees(crc, segs, sn, id);
    }
  }

  /** A restart shows the photos of memory if and only if the snapshot is usable. */
  lemma UsableIff(crc: Checksum, s: Store)
    requires LogInv(s) && SnapshotInv(crc, s.segs, s.snapshot)
    ensures s.snapshot.Snapshot? ==> s.snapshot.segment < |s.segs|
    ensures Live(LoadFrom(crc, s.segs, s.snapshot).primary) == Live(After(s).primary) <==>
            Usable(crc, s.segs, s.snapshot)
  {
    hide Agrees, LoadFrom, LiveAt, Live, Restores, Covers, Below;
    var loaded, memory := LoadFrom(crc, s.segs, s.snapshot).primary, After(s).primary;
    if s.snapshot.NoSnapshot? {
      forall id ensures Agrees(s.segs, loaded, id) {
        UsableAgrees(crc, s.segs, s.snapshot, id);
      }
      AgreementFixesLive(s.segs, loaded, memory);
    } else {
      var w, off, past := s.snapshot.segment, s.snapshot.offset, PutAll(EMPTY, s.snapshot.records).primary;
      forall id ensures LiveAt(loaded, id) == LiveAt(memory, id) <==> Restores(crc, s.segs, w, off, past, id) {
        RestoresIff(crc, s.segs, s.snapshot, memory, id);
      }
      LiveByPhoto(loaded, memory);
      if Live(loaded) != Live(memory) {
        var id :| LiveAt(loaded, id) != LiveAt(memory, id);
        RestoresIff(crc, s.segs, s.snapshot, memory, id);
      }
    }
  }

  /** A snapshot behind whose watermark no segment was rewritten is usable. */
  lemma SafeIsUsable(crc: Checksum, s: Store)
    requires LogInv(s) && SnapshotInv(crc, s.segs, s.snapshot) && RestartSafe(s)
    ensures Usable(crc, s.segs, s.snapshot)
  {
    hide Agrees, LoadFrom, Usable, Covers, Below;
    var loaded := LoadFrom(crc, s.segs, s.snapshot).primary;
    forall id ensures Agrees(s.segs, loaded, id) {
      LoadAgrees(crc, s.segs, s.snapshot, id);
    }
    AgreementFixesLive(s.segs, loaded, After(s).primary);
    UsableIff(crc, s);
  }

  lemma LoadKeyed(crc: Checksum, segs: seq<seq<Photo>>, sn: Snapshot)
    requires sn.Snapshot? ==> sn.segment < |segs|
    ensures Keyed(LoadFrom(crc, segs, sn).primary)
  {
    hide TailFrom, AllLocated, PutAll;
    match sn
    case NoSnapshot => PutAllKeyed(EMPTY, AllLocated(crc, segs, 0));
    case Snapshot(w, off, records, _) =>
      PutAllKeyed(EMPTY, records);
      PutAllKeyed(PutAll(EMPTY, records), TailFrom(crc, segs, w, off));
  }

  /** Every entry of a loaded index has its hash in the hash index. */
  ghost predicate HashesCover(ix: Entries) {
    forall id :: id in ix.primary ==> ix.primary[id].photo.contentHash in ix.hashes
  }

  lemma {:induction false} PutAllCovers(ix: Entries, ms: seq<PhotoMeta>)
    requires HashesCover(ix)
    ensures HashesCover(PutAll(ix, ms))
    decreases |ms|
  {
    if ms != [] { PutAllCovers(Put(ix, ms[0]), ms[1..]); }
  }

  lemma LoadCovers(crc: Checksum, segs: seq<seq<Photo>>, sn: Snapshot)
    requires sn.Snapshot? ==> sn.segment < |segs|
    ensures HashesCover(LoadFrom(crc, segs, sn))
  {
    hide TailFrom, AllLocated, PutAll;
    match sn
    case NoSnapshot => PutAllCovers(EMPTY, AllLocated(crc, segs, 0));
    case Snapshot(w, off, records, _) =>
      PutAllCovers(EMPTY, records);
      PutAllCovers(PutAll(EMPTY, records), TailFrom(crc, segs, w, off));
  }

  // -------------------------------------------------------- one step keeps it

  ghost predicate Takes(crc: Checksum, s: Store, step: Step) {
    Inv(crc, s) && s.segs != [] && Enabled(crc, s, step)
  }

  predicate IsAppend(step: Step) {
    step.AppendUpload? || step.AppendThumbnail? || step.AppendTombstone?
  }

  /** The record that an append step writes. */
  function Written(s: Store, step: Step): Photo
    requires IsAppend(step)
    requires step.AppendThumbnail? || step.AppendTombstone? ==> step.id in s.index.primary
  {
    match step
    case AppendUpload(p) => p
    case AppendThumbnail(id, paths) => s.index.primary[id].photo.(thumbnailPaths := paths)
    case AppendTombstone(id) => s.index.primary[id].photo.(tombstone := true)
  }

  lemma AppendNeeds(crc: Checksum, s: Store, step: Step)
    requires s.segs != [] && Enabled(crc, s, step) && IsAppend(step)
    ensures step.AppendThumbnail? || step.AppendTombstone? ==> step.id in s.index.primary
  {
    hide Fresh;
  }

  lemma TakesMeans(crc: Checksum, s: Store, step: Step)
    requires Takes(crc, s, step)
    ensures Inv(crc, s) && s.segs != [] && Enabled(crc, s, step)
  {
    hide Inv, Enabled;
  }

  lemma AppendStep(crc: Checksum, s: Store, step: Step)
    requires Takes(crc, s, step) && IsAppend(step)
    ensures var s' := Do(crc, s, step);
            && s'.segs == AppendTo(s.segs, Written(s, step)) && |s'.segs| == |s.segs|
            && s'.snapshot == s.snapshot && s'.mark == s.mark && s'.pass == s.pass
            && s'.index == s.index && After(s) == s.index
  {
    hide Lines, Line, Name;
  }

  predicate IsOpStep(step: Step) {
    step.Stage? || step.Commit? || step.IndexPut? || step.IndexRemove? || step.RemoveBlob? || step.GiveUp?
  }

  predicate IsMarkStep(step: Step) {
    step.ReadName? || step.ReadOffset? || step.CopyIndex? || step.SaveSnapshot? || step.LoseSnapshot?
  }

  predicate IsPassStep(step: Step) {
    step.BeginPass? || step.ReadSegment? || step.SkipSegment? || step.EndPass?
  }

  /** What the steps of an operation other than its append leave alone. */
  lemma OpStep(crc: Checksum, s: Store, step: Step)
    requires s.segs != [] && Enabled(crc, s, step) && IsOpStep(step)
    ensures var s' := Do(crc, s, step);
            && s'.segs == s.segs && s'.snapshot == s.snapshot && s'.mark == s.mark && s'.pass == s.pass
            && !Pending(s')
            && (step.IndexRemove? ==> s.op.Buried?)
            && s'.index == if step.IndexPut? then Put(s.index, s.op.m)
                           else if step.IndexRemove? then Remove(s.index, s.op.id) else s.index
  {
    hide Put, Remove;
  }

  lemma MarkStep(crc: Checksum, s: Store, step: Step)
    requires s.segs != [] && Enabled(crc, s, step) && IsMarkStep(step)
    ensures var s' := Do(crc, s, step);
            && s'.segs == s.segs && s'.index == s.index && s'.op == s.op && s'.pass == s.pass
  {
    hide Lists, CopySound, Lines;
  }

  lemma PassStep(crc: Checksum, s: Store, step: Step)
    requires s.segs != [] && Enabled(crc, s, step) && IsPassStep(step)
    ensures var s' := Do(crc, s, step);
            && s'.segs == s.segs && s'.index == s.index && s'.op == s.op
            && (s'.pass.Checking? ==> s'.pass.checked == 0)
  {
    hide Lines, Scan, Name;
  }

  lemma LogAfterRename(crc: Checksum, s: Store)
    requires Takes(crc, s, RenameSegment)
    ensures LogInv(Do(crc, s, RenameSegment))
  {
    hide HomeOf, Agrees, SnapshotInv, MarkInv, PassInv, BlobInv, FirstSeen, BumpSnapshot, BumpMark;
    var s' := Do(crc, s, RenameSegment);
    assert After(s') == After(s);
    forall id ensures Agrees(s'.segs, After(s').primary, id) {
      RenameIsHarmless(crc, s, id);
      HarmlessAgrees(s.segs, s'.segs, After(s).primary, id);
    }
  }

  lemma SnapshotPlaced(crc: Checksum, s: Store)
    requires SnapshotInv(crc, s.segs, s.snapshot)
    ensures s.snapshot.Snapshot? ==> s.snapshot.segment < |s.segs|
  {
  }

  lemma LogAfterRestart(crc: Checksum, s: Store)
    requires Takes(crc, s, Restart)
    ensures LogInv(Do(crc, s, Restart))
  {
    hide Agrees, LoadFrom, SnapshotInv, MarkInv, PassInv, BlobInv, Usable;
    assert s.snapshot.Snapshot? ==> s.snapshot.segment < |s.segs| by { SnapshotPlaced(crc, s); }
    var s' := Do(crc, s, Restart);
    LoadKeyed(crc, s.segs, s.snapshot);
    forall id ensures Agrees(s'.segs, After(s').primary, id) {
      UsableAgrees(crc, s.segs, s.snapshot, id);
    }
  }

  /** The index behind an append step, with its update made: the written record for
      its photo, or none if it is a tombstone, and nothing else changed. */
  lemma IndexAfterAppend(crc: Checksum, s: Store, step: Step)
    requires s.segs != [] && Keyed(s.index.primary) && Enabled(crc, s, step) && IsAppend(step)
    ensures var primary, p := After(Do(crc, s, step)).primary, Written(s, step);
            && (forall id :: id != p.photoId ==>
                  (id in primary <==> id in s.index.primary) && (id in primary ==> primary[id] == s.index.primary[id]))
            && (if p.photoId in primary
                then primary[p.photoId].photo == p && primary[p.photoId].segmentId == Name(|s.segs|)
                else p.tombstone)
  {
    hide Name, Lines, Line, AppendTo, Fresh, Unshared;
  }

  lemma LogAfterAppend(crc: Checksum, s: Store, step: Step)
    requires Takes(crc, s, step) && IsAppend(step)
    ensures LogInv(Do(crc, s, step))
  {
    AppendStep(crc, s, step);
    var s' := Do(crc, s, step);
    assert Keyed(s.index.primary) && (s'.op.Buried? ==> s'.op.id in s.index.primary);
    assert forall id :: Agrees(s.segs, s.index.primary, id);
    IndexAfterAppend(crc, s, step);
    hide Do, After, Enabled, Written, AppendTo, Agrees, Name, SnapshotInv, MarkInv, PassInv, BlobInv;
    AppendKeepsAgreement(s, Written(s, step), After(s').primary);
  }

  lemma LogAfterRotate(crc: Checksum, s: Store)
    requires Takes(crc, s, Rotate)
    ensures LogInv(Do(crc, s, Rotate))
  {
    hide Name, Agrees, SnapshotInv, MarkInv, PassInv, BlobInv, PendingInv;
    var s' := Do(crc, s, Rotate);
    assert After(s') == After(s);
    forall id ensures Agrees(s'.segs, After(s').primary, id) {
      RotateAgrees(s.segs, After(s).primary, id);
    }
  }

  /** The log and the index as they were, or nothing pending any more. */
  lemma LogStays(s: Store, s': Store)
    requires LogInv(s) && s'.segs == s.segs && s'.index == s.index && s'.op == s.op
    ensures LogInv(s')
  {
    hide Agrees;
    assert After(s') == After(s);
  }

  lemma LogAfterOp(crc: Checksum, s: Store, step: Step)
    requires Takes(crc, s, step) && IsOpStep(step)
    ensures LogInv(Do(crc, s, step))
  {
    hide Agrees, SnapshotInv, MarkInv, PassInv, BlobInv, PendingInv, PlacedInv;
    assert Do(crc, s, step).segs == s.segs && After(Do(crc, s, step)).primary == After(s).primary;
  }

  lemma CheckStep(crc: Checksum, s: Store)
    requires s.segs != [] && Enabled(crc, s, CheckPhoto)
    ensures var s' := Do(crc, s, CheckPhoto);
            s'.segs == s.segs && s'.index == s.index && s'.op == s.op
  {
    hide CheckNext, LookupSound;
  }

  lemma LogKept(crc: Checksum, s: Store, step: Step)
    requires Takes(crc, s, step)
    ensures LogInv(Do(crc, s, step))
  {
    assert LogInv(s);
    hide Inv, LogInv, Do, Enabled;
    if IsAppend(step) {
      LogAfterAppend(crc, s, step);
    } else if step.RenameSegment? {
      LogAfterRename(crc, s);
    } else if step.Restart? {
      LogAfterRestart(crc, s);
    } else if step.Rotate? {
      LogAfterRotate(crc, s);
    } else if IsOpStep(step) {
      LogAfterOp(crc, s, step);
    } else {
      if IsMarkStep(step) { MarkStep(crc, s, step); }
      if IsPassStep(step) { PassStep(crc, s, step); }
      if step.CheckPhoto? { CheckStep(crc, s); }
      LogStays(s, Do(crc, s, step));
    }
  }

  lemma SnapshotKept(crc: Checksum, s: Store, step: Step)
    requires Takes(crc, s, step)
    ensures SnapshotInv(crc, Do(crc, s, step).segs, Do(crc, s, step).snapshot)
  {
    hide Name, Lines, Line, Scan, LoadFrom, LogInv, SnapshotInv, PassInv, BlobInv, CheckNext, FirstSeen;
    var s' := Do(crc, s, step);
    if IsAppend(step) {
      AppendStep(crc, s, step);
      SnapshotAfterAppend(crc, s.segs, Written(s, step), s.snapshot);
    } else if step.Rotate? {
      SnapshotAfterRotate(crc, s.segs, s.snapshot);
    } else if step.RenameSegment? {
      SnapshotAfterRename(crc, s, s.snapshot);
    } else if step.LoseSnapshot? {
      NoSnapshotInv(crc, s.segs);
    }
  }

  lemma NoSnapshotInv(crc: Checksum, segs: seq<seq<Photo>>)
    ensures SnapshotInv(crc, segs, NoSnapshot)
  {
  }

  lemma MarkAfterAppend(crc: Checksum, segs: seq<seq<Photo>>, p: Photo, m: Mark)
    requires segs != [] && MarkInv(crc, segs, m)
    ensures MarkInv(crc, AppendTo(segs, p), m)
  {
    hide Lines, SnapshotInv;
    match m
    case Placed(w, off, rewritten) =>
      if rewritten <= w && w == |segs| - 1 { BoundaryAfterAppend(crc, segs[w], p, off); }
    case Copied(w, off, records, rewritten) =>
      SnapshotAfterAppend(crc, segs, p, Snapshot(w, off, records, rewritten));
    case _ =>
  }

  lemma MarkAfterRotate(crc: Checksum, segs: seq<seq<Photo>>, m: Mark)
    requires MarkInv(crc, segs, m)
    ensures MarkInv(crc, segs + [[]], m)
  {
    hide SnapshotInv;
    match m
    case Copied(w, off, records, rewritten) =>
      SnapshotAfterRotate(crc, segs, Snapshot(w, off, records, rewritten));
    case _ =>
  }

  lemma MarkAfterRename(crc: Checksum, s: Store)
    requires MarkInv(crc, s.segs, s.mark) && PassInv(crc, s.segs, s.pass)
    requires s.pass.Checking? && s.pass.checked == |FirstSeen(s.pass.records)| && RenameSound(s)
    ensures MarkInv(crc, s.segs[s.pass.segment := s.pass.kept], BumpMark(s.mark, s.pass.segment))
  {
    assert s.pass.segment + 1 < |s.segs|;
    hide SnapshotInv, FirstSeen, PassInv, IsBoundary, RenameSound;
    match s.mark
    case Copied(w, off, records, rewritten) =>
      SnapshotAfterRename(crc, s, Snapshot(w, off, records, rewritten));
    case _ =>
  }

  lemma ActiveEndIsBoundary(crc: Checksum, ps: seq<Photo>)
    ensures IsBoundary(crc, ps, |Lines(crc, ps)|)
  {
    StartOfEnd(crc, ps);
    hide Start, Lines;
    assert |Lines(crc, ps)| == Start(crc, ps, |ps|);
  }

  /** The index without the pending update agrees with the log on every other photo. */
  lemma OthersAgree(s: Store, id: string)
    requires LogInv(s) && (Pending(s) ==> id != PendingId(s))
    ensures Agrees(s.segs, s.index.primary, id)
  {
    hide HomeOf, Name;
    assert Agrees(s.segs, After(s).primary, id);
  }

  /** A copy of the index covers the log behind any earlier watermark, also when the
      watermark's segment was rewritten in between, and also while an update is pending if
      the replay from the watermark reads its record. */
  lemma CopyCovers(crc: Checksum, s: Store, records: seq<PhotoMeta>)
    requires LogInv(s) && s.mark.Placed? && Lists(records, s.index.primary) && CopySound(crc, s)
    requires MarkInv(crc, s.segs, s.mark)
    ensures MarkInv(crc, s.segs, Copied(s.mark.segment, s.mark.offset, records, s.mark.rewritten))
  {
    var w, off := s.mark.segment, s.mark.offset;
    assert w < |s.segs|;
    CopyIs(s, records);
    hide Agrees, TailFrom, Last, IsBoundary, PutAll, Lists, HomeOf, LogInv, Unread, Below, Buries;
    forall id | Last(TailFrom(crc, s.segs, w, off), id).None?
      ensures Agrees(s.segs, PutAll(EMPTY, records).primary, id)
    {
      TailReads(crc, s.segs, w, off, id);
      OthersAgree(s, id);
    }
    CoversLeaves(crc, s.segs, w, off, records);
  }

  lemma CopyIs(s: Store, records: seq<PhotoMeta>)
    requires LogInv(s) && Lists(records, s.index.primary)
    ensures PutAll(EMPTY, records).primary == s.index.primary
  {
    assert Keyed(s.index.primary);
    hide LogInv, Lists, PutAll;
    SnapshotRestoresPrimary(records, s.index.primary);
  }

  lemma MarkKept(crc: Checksum, s: Store, step: Step)
    requires Takes(crc, s, step)
    ensures MarkInv(crc, Do(crc, s, step).segs, Do(crc, s, step).mark)
  {
    hide Name, Lines, Line, Scan, LoadFrom, SnapshotInv, PassInv, BlobInv, CheckNext, FirstSeen, IsBoundary, Agrees;
    hide Usable, PendingInv, RenameSound;
    var s' := Do(crc, s, step);
    if IsAppend(step) {
      AppendStep(crc, s, step);
      MarkAfterAppend(crc, s.segs, Written(s, step), s.mark);
    } else if step.Rotate? {
      MarkAfterRotate(crc, s.segs, s.mark);
    } else if step.RenameSegment? {
      MarkAfterRename(crc, s);
    } else if step.ReadOffset? {
      ActiveEndIsBoundary(crc, s.segs[Active(s)]);
    } else if step.CopyIndex? {
      CopyCovers(crc, s, step.records);
    }
  }

  // --------------------------------------------------------- compaction steps

  lemma NothingKept(segs: seq<seq<Photo>>, j: nat, limit: nat, ids: seq<string>)
    requires j < limit <= |segs|
    ensures KeptInv(segs, j, limit, ids, 0, [])
  {
  }

  lemma ReadKeepsPass(crc: Checksum, s: Store)
    requires Takes(crc, s, ReadSegment)
    ensures PassInv(crc, s.segs, Do(crc, s, ReadSegment).pass)
  {
    hide Name, Lines, Scan, Located, FirstSeen, LogInv, SnapshotInv, MarkInv, BlobInv, Clean, KeptInv;
    var j, limit := s.pass.next, s.pass.limit;
    ScanLines(crc, Name(j + 1), s.segs[j], 0);
    NothingKept(s.segs, j, limit, FirstSeen(Located(crc, Name(j + 1), s.segs[j], 0)));
  }

  lemma HomeAtOrAfter(segs: seq<seq<Photo>>, j: nat, id: string)
    requires j < |segs| && Has(segs[j], id)
    ensures HomeOf(segs, id).At? && j <= HomeOf(segs, id).segment
  {
    hide HomeOf, LastPhoto;
    HomeSpec(segs, id);
  }

  /** What the index cross-check finds: a photo the index places in this segment has no
      later record, and a live record of any other photo is followed by a later one. */
  lemma CrossCheck(segs: seq<seq<Photo>>, primary: Primary, j: nat, id: string)
    requires j < |segs| <= MAX_COUNTER && Agrees(segs, primary, id) && Has(segs[j], id)
    ensures LivesIn(primary, id, j) ==> NoneFrom(segs, j + 1, id)
    ensures !LivesIn(primary, id, j) && !LastPhoto(segs[j], id).value.tombstone ==> LaterHas(segs, j, id)
  {
    hide HomeOf, Name, LastPhoto;
    HomeSpec(segs, id);
    HomeAtOrAfter(segs, j, id);
    var h := HomeOf(segs, id).segment;
    if LivesIn(primary, id, j) { NameInjective(h + 1, j + 1); }
  }

  /** The same for the photo whose update is pending, where the stale index decides soundly. */
  lemma PendingCheck(s: Store, keep: bool)
    requires PendingInv(s) && Pending(s) && s.pass.Checking? && s.pass.checked < |FirstSeen(s.pass.records)|
    requires LookupSound(s) && FirstSeen(s.pass.records)[s.pass.checked] == PendingId(s)
    requires s.pass.segment < s.pass.limit <= |s.segs| && Has(s.segs[s.pass.segment], PendingId(s))
    requires keep == Keeps(s.pass, s.index.primary)
    requires keep ==> LivesIn(s.index.primary, PendingId(s), s.pass.segment)
    ensures if keep then NoneBetween(s.segs, s.pass.segment + 1, s.pass.limit, PendingId(s))
            else LaterHas(s.segs, s.pass.segment, PendingId(s))
    ensures s.pass.segment == HomeOf(s.segs, PendingId(s)).segment ==> keep
  {
    hide HomeOf, LastPhoto, Keeps, FirstSeen, LivesIn, SameThere, StillThere, Looked;
    HomeSpec(s.segs, PendingId(s));
    HomeAtOrAfter(s.segs, s.pass.segment, PendingId(s));
  }

  /** A look-up finds the record `p`, and rightly keeps or drops it. */
  ghost predicate Verdict(segs: seq<seq<Photo>>, j: nat, limit: nat, id: string, keep: bool, p: Photo)
    requires j < limit <= |segs|
  {
    && LastPhoto(segs[j], id) == Some(p)
    && if keep then !p.tombstone && NoneBetween(segs, j + 1, limit, id) else p.tombstone || LaterHas(segs, j, id)
  }

  lemma KeptGrows(
      segs: seq<seq<Photo>>, j: nat, limit: nat, ids: seq<string>, checked: nat, kept: seq<Photo>, keep: bool, p: Photo)
    requires j < limit <= |segs| && checked < |ids| && KeptInv(segs, j, limit, ids, checked, kept)
    requires Verdict(segs, j, limit, ids[checked], keep, p)
    ensures KeptInv(segs, j, limit, ids, checked + 1, if keep then kept + [p] else kept)
  {
    var id := ids[checked];
    LastPhotoIsMember(segs[j], id);
    hide LastPhoto;
    var kept' := if keep then kept + [p] else kept;
    forall i | 0 <= i < checked + 1
      ensures || (exists q :: q in kept' && q.photoId == ids[i])
              || (Has(segs[j], ids[i]) && LastPhoto(segs[j], ids[i]).value.tombstone)
              || LaterHas(segs, j, ids[i])
    {
      if i < checked {
        if q :| q in kept && q.photoId == ids[i] { assert q in kept'; }
      } else if keep {
        assert p in kept';
      }
    }
  }

  /** The photo looked up next: its record `p`, and whether it is kept. */
  lemma CheckNextIs(crc: Checksum, ps: seq<Photo>, pass: Pass, primary: Primary) returns (keep: bool, p: Photo)
    requires pass.Checking? && pass.records == Located(crc, Name(pass.segment + 1), ps, 0)
    requires pass.checked < |FirstSeen(pass.records)|
    ensures LastPhoto(ps, FirstSeen(pass.records)[pass.checked]) == Some(p)
    ensures CheckNext(pass, primary) ==
            pass.(checked := pass.checked + 1, kept := if keep then pass.kept + [p] else pass.kept)
    ensures keep <==> !p.tombstone && LivesIn(primary, FirstSeen(pass.records)[pass.checked], pass.segment)
    ensures keep <==> Keeps(pass, primary)
  {
    hide Located, FirstSeen, LastPhoto, Name;
    var id, segment := FirstSeen(pass.records)[pass.checked], Name(pass.segment + 1);
    IdsOfSegment(crc, segment, ps, id);
    LastLocated(crc, segment, ps, 0, id);
    p := LastPhoto(ps, id).value;
    keep := Current(primary, segment, Last(pass.records, id).value);
  }

  /** What is found for the photo looked up next. */
  lemma CheckFinds(crc: Checksum, s: Store) returns (keep: bool, p: Photo)
    requires LogInv(s) && PendingInv(s) && PassInv(crc, s.segs, s.pass)
    requires s.pass.Checking? && s.pass.checked < |FirstSeen(s.pass.records)| && LookupSound(s)
    ensures s.pass.segment < s.pass.limit <= |s.segs|
    ensures Verdict(s.segs, s.pass.segment, s.pass.limit, FirstSeen(s.pass.records)[s.pass.checked], keep, p)
    ensures var id := FirstSeen(s.pass.records)[s.pass.checked];
            && (keep <==> !p.tombstone && LivesIn(s.index.primary, id, s.pass.segment))
            && (Pending(s) && id == PendingId(s) && s.pass.segment == HomeOf(s.segs, id).segment ==> keep)
    ensures CheckNext(s.pass, s.index.primary) ==
            s.pass.(checked := s.pass.checked + 1, kept := if keep then s.pass.kept + [p] else s.pass.kept)
  {
    hide *;
    PassBounds(crc, s);
    LogBound(s);
    var j, limit, id := s.pass.segment, s.pass.limit, FirstSeen(s.pass.records)[s.pass.checked];
    keep, p := CheckNextIs(crc, s.segs[j], s.pass, s.index.primary);
    LookedHas(s.segs, j, id, p);
    if Pending(s) && id == PendingId(s) {
      PendingCheck(s, keep);
      PendingVerdict(s.segs, j, limit, id, keep, p);
    } else {
      OthersAgree(s, id);
      AgreedVerdict(s.segs, s.index.primary, j, limit, id, keep, p);
    }
  }

  lemma PendingVerdict(segs: seq<seq<Photo>>, j: nat, limit: nat, id: string, keep: bool, p: Photo)
    requires j < limit <= |segs| && LastPhoto(segs[j], id) == Some(p) && (keep ==> !p.tombstone)
    requires if keep then NoneBetween(segs, j + 1, limit, id) else LaterHas(segs, j, id)
    ensures Verdict(segs, j, limit, id, keep, p)
  {
    hide LastPhoto, NoneBetween, LaterHas;
  }

  lemma AgreedVerdict(
      segs: seq<seq<Photo>>, primary: Primary, j: nat, limit: nat, id: string, keep: bool, p: Photo)
    requires j < limit <= |segs| <= MAX_COUNTER && LastPhoto(segs[j], id) == Some(p) && Agrees(segs, primary, id)
    requires keep <==> !p.tombstone && LivesIn(primary, id, j)
    ensures Verdict(segs, j, limit, id, keep, p)
  {
    LookedHas(segs, j, id, p);
    CrossCheck(segs, primary, j, id);
    NoneFromIsBetween(segs, j + 1, limit, id);
    hide LastPhoto, NoneBetween, LaterHas, NoneFrom, Agrees, LivesIn;
  }

  lemma PassBounds(crc: Checksum, s: Store)
    requires PassInv(crc, s.segs, s.pass) && s.pass.Checking?
    ensures s.pass.segment < s.pass.limit < |s.segs|
    ensures s.pass.records == Located(crc, Name(s.pass.segment + 1), s.segs[s.pass.segment], 0)
  {
    hide Located, Name, Clean, KeptInv, FirstSeen;
  }

  lemma LookedHas(segs: seq<seq<Photo>>, j: nat, id: string, p: Photo)
    requires j < |segs| && LastPhoto(segs[j], id) == Some(p)
    ensures Has(segs[j], id)
  {
    hide LastPhoto;
  }

  lemma NoneFromIsBetween(segs: seq<seq<Photo>>, lo: nat, hi: nat, id: string)
    requires hi <= |segs|
    ensures NoneFrom(segs, lo, id) ==> NoneBetween(segs, lo, hi, id)
  {
    hide Has;
  }

  lemma LogBound(s: Store)
    requires LogInv(s)
    ensures 1 <= |s.segs| <= MAX_COUNTER
  {
  }

  lemma CheckKeepsPass(crc: Checksum, s: Store)
    requires LogInv(s) && PendingInv(s) && PassInv(crc, s.segs, s.pass)
    requires s.pass.Checking? && s.pass.checked < |FirstSeen(s.pass.records)| && LookupSound(s)
    ensures PassInv(crc, s.segs, CheckNext(s.pass, s.index.primary))
  {
    hide *;
    PassHasKept(crc, s.segs, s.pass);
    var pass, ids := s.pass, FirstSeen(s.pass.records);
    var keep, p := CheckFinds(crc, s);
    KeptGrows(s.segs, pass.segment, pass.limit, ids, pass.checked, pass.kept, keep, p);
    PassWithMore(crc, s.segs, pass, pass.checked + 1, if keep then pass.kept + [p] else pass.kept);
  }

  lemma PassHasKept(crc: Checksum, segs: seq<seq<Photo>>, pass: Pass)
    requires PassInv(crc, segs, pass) && pass.Checking?
    ensures pass.segment < pass.limit < |segs| && pass.checked <= |FirstSeen(pass.records)|
    ensures KeptInv(segs, pass.segment, pass.limit, FirstSeen(pass.records), pass.checked, pass.kept)
  {
    hide Located, Name, Clean, KeptInv, FirstSeen;
  }

  lemma PassWithMore(crc: Checksum, segs: seq<seq<Photo>>, pass: Pass, checked: nat, kept: seq<Photo>)
    requires PassInv(crc, segs, pass) && pass.Checking? && checked <= |FirstSeen(pass.records)|
    requires pass.segment < pass.limit <= |segs|
    requires KeptInv(segs, pass.segment, pass.limit, FirstSeen(pass.records), checked, kept)
    ensures PassInv(crc, segs, pass.(checked := checked, kept := kept))
  {
    hide Located, FirstSeen, KeptInv, Name, Clean;
  }

  lemma SkipKeepsPass(crc: Checksum, segs: seq<seq<Photo>>, pass: Pass)
    requires PassInv(crc, segs, pass) && !pass.Resting? && (pass.Between? ==> pass.next < pass.limit)
    ensures PassInv(crc, segs, Skip(pass))
  {
    hide Located, FirstSeen, KeptInv, Has, Name;
  }

  lemma PassKept(crc: Checksum, s: Store, step: Step)
    requires Takes(crc, s, step)
    ensures PassInv(crc, Do(crc, s, step).segs, Do(crc, s, step).pass)
  {
    hide Name, Lines, Line, Scan, Located, LoadFrom, SnapshotInv, MarkInv, BlobInv, FirstSeen, KeptInv, Has, CheckNext;
    var s' := Do(crc, s, step);
    if IsAppend(step) {
      AppendStep(crc, s, step);
      if !s.pass.Resting? { AppendGrows(s.segs, Written(s, step), s.pass.limit); }
      PassAfterGrowth(crc, s.segs, s'.segs, s.pass);
    } else if step.Rotate? {
      PassAfterGrowth(crc, s.segs, s'.segs, s.pass);
    } else if step.RenameSegment? {
      var Checking(j, limit, records, checked, kept, skipped) := s.pass;
      CleanAfterRename(s.segs, j, limit, FirstSeen(records), checked, kept, skipped);
    } else if step.SkipSegment? {
      SkipKeepsPass(crc, s.segs, s.pass);
    } else if step.ReadSegment? {
      ReadKeepsPass(crc, s);
    } else if step.CheckPhoto? {
      CheckKeepsPass(crc, s);
    }
  }

  // --------------------------------------------------------------- blob steps

  lemma BlobsAfterUpload(s: Store, m: PhotoMeta)
    requires BlobInv(s) && s.op.Committed? && m.photo.contentHash == s.op.hash && m.photo.photoId !in s.index.primary
    ensures BlobInv(s.(op := Appended(m)))
  {
    assert After(s) == s.index && After(s.(op := Appended(m))) == Put(s.index, m);
  }

  lemma BlobsAfterThumbnail(s: Store, m: PhotoMeta)
    requires BlobInv(s) && s.op.Idle? && m.photo.photoId in s.index.primary
    requires var p := s.index.primary[m.photo.photoId].photo;
             m.photo.contentHash == p.contentHash && m.photo.tombstone == p.tombstone
    ensures BlobInv(s.(op := Appended(m)))
  {
    assert After(s) == s.index && After(s.(op := Appended(m))) == Put(s.index, m);
  }

  lemma BlobsAfterTombstone(s: Store, id: string)
    requires BlobInv(s) && s.op.Idle? && id in s.index.primary && Unshared(s.index.primary, id)
    ensures BlobInv(s.(op := Buried(id)))
  {
    assert After(s) == s.index && After(s.(op := Buried(id))) == Remove(s.index, id);
  }

  /** The segments play no part in the blob invariant. */
  lemma BlobsIgnoreSegments(s: Store, s': Store)
    requires BlobInv(s) && s'.index == s.index && s'.op == s.op && s'.blobs == s.blobs
    ensures BlobInv(s')
  {
    assert After(s') == After(s);
    hide HaveBlobs, HaveHashes, ShareNothing, NoneHas;
  }

  lemma BlobsAfterAppend(crc: Checksum, s: Store, step: Step)
    requires Takes(crc, s, step) && IsAppend(step) && !Do(crc, s, step).sharedDelete
    ensures BlobInv(Do(crc, s, step))
  {
    AppendStep(crc, s, step);
    var s' := Do(crc, s, step);
    assert Keyed(s.index.primary);
    hide Name, Lines, Line, Agrees, SnapshotInv, MarkInv, PassInv, BlobInv, Unshared;
    match step
    case AppendUpload(p) =>
      BlobsAfterUpload(s, s'.op.m);
      BlobsIgnoreSegments(s.(op := s'.op), s');
    case AppendThumbnail(id, paths) =>
      BlobsAfterThumbnail(s, s'.op.m);
      BlobsIgnoreSegments(s.(op := s'.op), s');
    case AppendTombstone(id) =>
      BlobsAfterTombstone(s, id);
      BlobsIgnoreSegments(s.(op := s'.op), s');
  }

  lemma BlobsAfterIndexUpdate(crc: Checksum, s: Store, step: Step)
    requires BlobInv(s) && s.segs != [] && Enabled(crc, s, step) && (step.IndexPut? || step.IndexRemove?)
    ensures BlobInv(Do(crc, s, step))
  {
    if step.IndexPut? {
      assert After(Do(crc, s, step)) == After(s);
    } else {
      assert After(Do(crc, s, step)) == After(s);
    }
  }

  lemma BlobsAfterBlobStep(crc: Checksum, s: Store, step: Step)
    requires BlobInv(s) && s.segs != [] && Enabled(crc, s, step)
    requires step.Stage? || step.Commit? || step.RemoveBlob? || step.GiveUp?
    ensures BlobInv(Do(crc, s, step))
  {
  }

  lemma BlobsAfterRestart(crc: Checksum, s: Store)
    requires Takes(crc, s, Restart) && !s.sharedDelete
    ensures BlobInv(Do(crc, s, Restart))
  {
    RestartIs(crc, s);
    RestartShows(crc, s);
    hide Inv, Do, Enabled, Usable, LoadFrom, BlobInv, Live, After, HashesCover;
    LoadCovers(crc, s.segs, s.snapshot);
    BlobsOfSameLive(s, Do(crc, s, Restart));
  }

  lemma RestartIs(crc: Checksum, s: Store)
    requires Takes(crc, s, Restart) && !s.sharedDelete
    ensures Usable(crc, s.segs, s.snapshot) && BlobInv(s) && (s.snapshot.Snapshot? ==> s.snapshot.segment < |s.segs|)
    ensures var t := Do(crc, s, Restart);
            t.op.Idle? && t.index == LoadFrom(crc, s.segs, s.snapshot) && t.blobs == s.blobs
  {
    hide LogInv, SnapshotInv, MarkInv, PassInv, PendingInv, BlobInv, LoadFrom, PutAll, Restores;
  }

  lemma BlobsOfSameLive(s: Store, t: Store)
    requires BlobInv(s) && t.op.Idle? && t.blobs == s.blobs && HashesCover(t.index)
    requires Live(t.index.primary) == Live(After(s).primary)
    ensures BlobInv(t)
  {
    assert After(t) == t.index;
    var a, b := After(s).primary, t.index.primary;
    forall id | IsLive(b, id) ensures IsLive(a, id) && a[id].photo == b[id].photo {
      assert id in Live(b);
      assert id in Live(a) && Live(a)[id] == Live(b)[id];
    }
  }

  /** A restart with a usable snapshot shows exactly the photos that memory shows, with
      the pending update. */
  lemma RestartShows(crc: Checksum, s: Store)
    requires Inv(crc, s) && Usable(crc, s.segs, s.snapshot)
    ensures s.snapshot.Snapshot? ==> s.snapshot.segment < |s.segs|
    ensures Live(LoadFrom(crc, s.segs, s.snapshot).primary) == Live(After(s).primary)
  {
    hide LoadFrom, LogInv, SnapshotInv, MarkInv, PassInv, BlobInv, PendingInv, Usable, Live, After;
    UsableIff(crc, s);
  }

  lemma BlobsKept(crc: Checksum, s: Store, step: Step)
    requires Takes(crc, s, step) && !Do(crc, s, step).sharedDelete
    ensures BlobInv(Do(crc, s, step))
  {
    hide Name, Lines, Line, Scan, LoadFrom, Agrees, LogInv, SnapshotInv, MarkInv, PassInv, BlobInv, CheckNext;
    hide FirstSeen, Put, Remove, Usable, PendingInv, Unshared;
    if IsAppend(step) {
      BlobsAfterAppend(crc, s, step);
    } else if step.Restart? {
      BlobsAfterRestart(crc, s);
    } else if step.IndexPut? || step.IndexRemove? {
      BlobsAfterIndexUpdate(crc, s, step);
    } else if step.Stage? || step.Commit? || step.RemoveBlob? || step.GiveUp? {
      BlobsAfterBlobStep(crc, s, step);
    } else {
      BlobsIgnoreSegments(s, Do(crc, s, step));
    }
  }

  // ------------------------------------------------------ the pending update

  /** An index that agrees with the log is not even stale. */
  lemma AgreesIsNotStale(segs: seq<seq<Photo>>, primary: Primary, id: string, h: nat)
    requires |segs| <= MAX_COUNTER && Agrees(segs, primary, id)
    ensures Stale(segs, primary, id, h)
  {
    hide HomeOf, LastPhoto, LivesIn;
    HomeSpec(segs, id);
    forall i: nat | i < |segs| && LivesIn(primary, id, i)
      ensures id in primary && (HomeOf(segs, id).At? ==> HomeOf(segs, id).segment == i)
    {
      IndexedAtHome(segs, primary, id, i);
    }
    assert NoneBehind(segs, primary, id, h);
    assert SameThere(segs, primary, id, h);
    if IsLive(primary, id) {
      LiveAtHome(segs, primary, id);
      var i := HomeOf(segs, id).segment;
      assert LivesIn(primary, id, i) && Has(segs[i], id);
    }
  }

  lemma IndexedAtHome(segs: seq<seq<Photo>>, primary: Primary, id: string, i: nat)
    requires i < |segs| <= MAX_COUNTER && Agrees(segs, primary, id) && LivesIn(primary, id, i)
    ensures id in primary && (HomeOf(segs, id).At? ==> HomeOf(segs, id).segment == i)
  {
    hide HomeOf, Name;
    HomeSpec(segs, id);
    if HomeOf(segs, id).At? { NameInjective(HomeOf(segs, id).segment + 1, i + 1); }
  }

  lemma LiveAtHome(segs: seq<seq<Photo>>, primary: Primary, id: string)
    requires Agrees(segs, primary, id) && IsLive(primary, id)
    ensures var home := HomeOf(segs, id);
            home.At? && home.segment < |segs| && LivesIn(primary, id, home.segment) && Has(segs[home.segment], id)
  {
    hide HomeOf, Name, LastPhoto;
    HomeSpec(segs, id);
  }

  lemma StaleIgnores(segs: seq<seq<Photo>>, segs': seq<seq<Photo>>, primary: Primary, id: string, h: nat)
    requires |segs'| == |segs| && forall u: nat | u < |segs| && u != h :: segs'[u] == segs[u]
    requires Stale(segs, primary, id, h)
    ensures Stale(segs', primary, id, h)
  {
    hide LastPhoto, LivesIn;
    if IsLive(primary, id) {
      var i: nat :| i < |segs| && LivesIn(primary, id, i) && (i == h || Has(segs[i], id));
      assert i == h || Has(segs'[i], id);
    }
  }

  /** An append makes the index stale by one record. */
  lemma StaleAfterAppend(segs: seq<seq<Photo>>, p: Photo, primary: Primary)
    requires segs != [] && |segs| <= MAX_COUNTER && Agrees(segs, primary, p.photoId)
    ensures Stale(AppendTo(segs, p), primary, p.photoId, |segs| - 1)
  {
    hide Stale, Agrees;
    AgreesIsNotStale(segs, primary, p.photoId, |segs| - 1);
    StaleIgnores(segs, AppendTo(segs, p), primary, p.photoId, |segs| - 1);
  }

  lemma StaleAfterRotate(segs: seq<seq<Photo>>, primary: Primary, id: string, h: nat)
    requires Stale(segs, primary, id, h)
    ensures Stale(segs + [[]], primary, id, h)
  {
    hide LastPhoto, LivesIn;
    var segs' := segs + [[]];
    assert !Has([], id) by { NoPhotoInNothing(id); }
    assert forall u: nat | u < |segs| :: segs'[u] == segs[u];
    if IsLive(primary, id) {
      var i: nat :| i < |segs| && LivesIn(primary, id, i) && (i == h || Has(segs[i], id));
      assert i == h || Has(segs'[i], id);
    }
  }

  lemma NoPhotoInNothing(id: string)
    ensures LastPhoto([], id).None?
  {
  }

  lemma PendingAfterAppend(crc: Checksum, s: Store, step: Step)
    requires Takes(crc, s, step) && IsAppend(step)
    ensures PendingInv(Do(crc, s, step))
  {
    hide *;
    TakesMeans(crc, s, step);
    AppendNeeds(crc, s, step);
    AppendStep(crc, s, step);
    AppendedIs(crc, s, step);
    AppendBefore(crc, s, step);
    var p := Written(s, step);
    HomeAfterAppend(s.segs, p, p.photoId);
    StaleAfterAppend(s.segs, p, s.index.primary);
    PendingIs(Do(crc, s, step), p, |s.segs| - 1);
  }

  lemma AppendBefore(crc: Checksum, s: Store, step: Step)
    requires Takes(crc, s, step) && IsAppend(step)
    ensures Agrees(s.segs, s.index.primary, Written(s, step).photoId) && |s.segs| <= MAX_COUNTER
    ensures s.pass.Checking? ==> s.pass.segment < |s.segs| - 1
  {
    AppendStep(crc, s, step);
    hide Do, Enabled, Agrees, SnapshotInv, MarkInv, BlobInv, PendingInv, PlacedInv, Written, KeptInv, Located, Clean;
  }

  /** Put together what holds of a record that was just appended to segment `h`. */
  lemma PendingIs(s: Store, p: Photo, h: nat)
    requires Pending(s) && PendingId(s) == p.photoId && HomeOf(s.segs, p.photoId) == At(h, p)
    requires s.pass.Checking? ==> s.pass.segment < h
    requires Stale(s.segs, s.index.primary, p.photoId, h)
    requires p.photoId !in s.index.primary ==> !p.tombstone
    requires p.photoId in s.index.primary && s.index.primary[p.photoId].photo.tombstone ==> p.tombstone
    ensures PendingInv(s)
  {
    hide HomeOf, Stale, Looked;
  }

  lemma AppendedIs(crc: Checksum, s: Store, step: Step)
    requires Takes(crc, s, step) && IsAppend(step)
    ensures var s' := Do(crc, s, step);
            Pending(s') && PendingId(s') == Written(s, step).photoId
    ensures Written(s, step).photoId !in s.index.primary ==> !Written(s, step).tombstone
    ensures var id := Written(s, step).photoId;
            id in s.index.primary && s.index.primary[id].photo.tombstone ==> Written(s, step).tombstone
  {
    assert Keyed(s.index.primary);
    hide Name, Lines, Line, Agrees, SnapshotInv, MarkInv, PassInv, BlobInv, Unshared, AppendTo, Fresh;
  }

  /** One more photo looked up. */
  lemma LookedOneMore(pass: Pass, primary: Primary, id: string)
    requires pass.Checking? && pass.checked < |FirstSeen(pass.records)|
    ensures Looked(CheckNext(pass, primary), id) <==> Looked(pass, id) || id == FirstSeen(pass.records)[pass.checked]
  {
    hide FirstSeen, Keeps, Last;
    var pass' := CheckNext(pass, primary);
    assert pass'.records == pass.records && pass'.checked == pass.checked + 1;
    if Looked(pass, id) {
      var k :| 0 <= k < pass.checked && k < |FirstSeen(pass.records)| && FirstSeen(pass.records)[k] == id;
      assert 0 <= k < pass'.checked && FirstSeen(pass'.records)[k] == id;
    }
    if id == FirstSeen(pass.records)[pass.checked] {
      assert FirstSeen(pass'.records)[pass.checked] == id;
    }
  }

  /** A look-up keeps what was kept. */
  lemma KeptStays(crc: Checksum, s: Store, id: string)
    requires LogInv(s) && PendingInv(s) && PassInv(crc, s.segs, s.pass)
    requires s.pass.Checking? && s.pass.checked < |FirstSeen(s.pass.records)| && LookupSound(s)
    ensures s.pass.segment < |s.segs|
    ensures var pass' := CheckNext(s.pass, s.index.primary);
            var seen := FirstSeen(s.pass.records)[s.pass.checked];
            && (Has(s.pass.kept, id) ==> Has(pass'.kept, id))
            && (var last := LastPhoto(s.segs[s.pass.segment], seen);
                LivesIn(s.index.primary, seen, s.pass.segment) && last.Some? && !last.value.tombstone ==>
                  Has(pass'.kept, seen))
            && (Pending(s) && seen == PendingId(s) && s.pass.segment == HomeOf(s.segs, seen).segment ==>
                  Has(pass'.kept, seen))
  {
    hide LogInv, PendingInv, PassInv, FirstSeen, LookupSound, CheckNext, LivesIn, HomeOf, LastPhoto;
    var keep, p := CheckFinds(crc, s);
    var seen := FirstSeen(s.pass.records)[s.pass.checked];
    LastPhotoIsMember(s.segs[s.pass.segment], seen);
    if keep {
      LastPhotoSnoc(s.pass.kept, p, id);
      LastPhotoSnoc(s.pass.kept, p, seen);
    }
  }

  lemma PendingAfterCheck(crc: Checksum, s: Store)
    requires Takes(crc, s, CheckPhoto)
    ensures PendingInv(Do(crc, s, CheckPhoto))
  {
    var s' := Do(crc, s, CheckPhoto);
    assert s'.segs == s.segs && s'.index == s.index && s'.op == s.op && s'.pass == CheckNext(s.pass, s.index.primary);
    assert s'.pass.Checking? && s'.pass.segment == s.pass.segment;
    hide Do, LogInv, SnapshotInv, MarkInv, PassInv, BlobInv, FirstSeen, LookupSound, CheckNext, HomeOf, Looked, Stale;
    hide LastPhoto, PlacedInv;
    if Pending(s) {
      LookedOneMore(s.pass, s.index.primary, PendingId(s));
      KeptStays(crc, s, PendingId(s));
    }
  }

  lemma PendingAfterRenameStep(crc: Checksum, s: Store)
    requires Takes(crc, s, RenameSegment)
    ensures PendingInv(Do(crc, s, RenameSegment))
  {
    hide Name, LogInv, SnapshotInv, MarkInv, PassInv, BlobInv, FirstSeen, HomeOf, Looked, Stale, BumpSnapshot, BumpMark;
    hide PlacedInv;
    if Pending(s) {
      PendingAfterRename(crc, s);
      StaleAfterRename(crc, s, PendingId(s), HomeOf(s.segs, PendingId(s)).segment);
    }
  }

  /** The log grows, but not by a record of the pending photo. */
  lemma PendingGrows(s: Store, s': Store)
    requires PendingInv(s) && s'.index == s.index && s'.op == s.op && s'.pass == s.pass
    requires Pending(s) ==>
               var id := PendingId(s);
               && HomeOf(s'.segs, id) == HomeOf(s.segs, id)
               && (HomeOf(s.segs, id).At? && Stale(s.segs, s.index.primary, id, HomeOf(s.segs, id).segment) ==>
                     Stale(s'.segs, s.index.primary, id, HomeOf(s.segs, id).segment))
    ensures PendingInv(s')
  {
    hide HomeOf, Stale, Looked, LastPhoto;
  }

  lemma PendingAfterRotate(crc: Checksum, s: Store)
    requires Takes(crc, s, Rotate)
    ensures PendingInv(Do(crc, s, Rotate))
  {
    hide *;
    TakesMeans(crc, s, Rotate);
    PendingOf(crc, s);
    RotateStep(crc, s);
    if Pending(s) {
      var id := PendingId(s);
      HomeAfterRotate(s.segs, id);
      var home := HomeOf(s.segs, id);
      if home.At? && Stale(s.segs, s.index.primary, id, home.segment) {
        StaleAfterRotate(s.segs, s.index.primary, id, home.segment);
      }
    }
    PendingGrows(s, Do(crc, s, Rotate));
  }

  lemma PendingOf(crc: Checksum, s: Store)
    requires Inv(crc, s)
    ensures PendingInv(s)
  {
    hide LogInv, SnapshotInv, MarkInv, PassInv, BlobInv, PendingInv, PlacedInv;
  }

  /** Neither the log nor the index changes, and nothing is looked up. */
  lemma PendingStays(s: Store, s': Store)
    requires PendingInv(s) && s'.segs == s.segs && s'.index == s.index && s'.op == s.op
    requires s'.pass == s.pass || (s'.pass.Checking? ==> s'.pass.checked == 0)
    ensures PendingInv(s')
  {
    hide HomeOf, Stale, FirstSeen, LastPhoto;
  }

  lemma NothingPending(s: Store)
    requires !Pending(s)
    ensures PendingInv(s)
  {
  }

  lemma PendingKept(crc: Checksum, s: Store, step: Step)
    requires Takes(crc, s, step)
    ensures PendingInv(Do(crc, s, step))
  {
    assert PendingInv(s);
    if IsAppend(step) {
      PendingAfterAppend(crc, s, step);
    } else if step.CheckPhoto? {
      PendingAfterCheck(crc, s);
    } else if step.RenameSegment? {
      PendingAfterRenameStep(crc, s);
    } else if step.Rotate? {
      PendingAfterRotate(crc, s);
    } else {
      var s' := Do(crc, s, step);
      hide Inv, Do, Enabled, PendingInv, Pending;
      if IsMarkStep(step) {
        MarkStep(crc, s, step);
        PendingStays(s, s');
      } else if IsPassStep(step) {
        PassStep(crc, s, step);
        PendingStays(s, s');
      } else if IsOpStep(step) {
        OpStep(crc, s, step);
        NothingPending(s');
      } else {
        RestartEnds(crc, s);
        NothingPending(s');
      }
    }
  }

  lemma RestartEnds(crc: Checksum, s: Store)
    requires s.segs != [] && Enabled(crc, s, Restart)
    ensures !Pending(Do(crc, s, Restart)) && Do(crc, s, Restart).pass.Resting?
  {
    hide LoadFrom, Usable;
  }

  lemma PlacedAfterCheck(crc: Checksum, s: Store)
    requires Takes(crc, s, CheckPhoto)
    ensures PlacedInv(Do(crc, s, CheckPhoto))
  {
    var s', j := Do(crc, s, CheckPhoto), s.pass.segment;
    assert s'.segs == s.segs && s'.index == s.index && s'.pass == CheckNext(s.pass, s.index.primary);
    assert s'.pass.Checking? && s'.pass.segment == j;
    assert PlacedInv(s);
    hide Do, LogInv, SnapshotInv, MarkInv, PassInv, BlobInv, FirstSeen, LookupSound, CheckNext, Looked, PendingInv;
    hide LastPhoto, LivesIn, HomeOf;
    if j < |s.segs| {
      forall id | Looked(s'.pass, id) && LivesIn(s'.index.primary, id, j)
        ensures (var last := LastPhoto(s'.segs[j], id); last.Some? && !last.value.tombstone) ==> Has(s'.pass.kept, id)
      {
        LookedOneMore(s.pass, s.index.primary, id);
        KeptStays(crc, s, id);
      }
    }
  }

  /** After the update the index places the photo where its new record is. */
  lemma PutPlaces(s: Store, j: nat)
    requires LogInv(s) && s.op.Appended? && j < |s.segs|
    requires LivesIn(Put(s.index, s.op.m).primary, PendingId(s), j) && HomeOf(s.segs, PendingId(s)).At?
    ensures HomeOf(s.segs, PendingId(s)).segment == j
  {
    hide HomeOf, Name;
    HomeSpec(s.segs, PendingId(s));
    assert Agrees(s.segs, After(s).primary, PendingId(s));
    NameInjective(HomeOf(s.segs, PendingId(s)).segment + 1, j + 1);
  }

  lemma PlacedAfterPut(crc: Checksum, s: Store)
    requires Takes(crc, s, IndexPut)
    ensures PlacedInv(Do(crc, s, IndexPut))
  {
    var s' := Do(crc, s, IndexPut);
    var j: nat := if s.pass.Checking? then s.pass.segment else 0;
    assert s'.segs == s.segs && s'.index == Put(s.index, s.op.m) && s'.pass == s.pass;
    assert PlacedInv(s) && PendingInv(s) && LogInv(s);
    hide Do, SnapshotInv, MarkInv, PassInv, BlobInv, FirstSeen, Looked, LogInv, HomeOf, LastPhoto, Stale, Name;
    if s.pass.Checking? && j < |s.segs| {
      forall id | Looked(s'.pass, id) && LivesIn(s'.index.primary, id, j)
        ensures (var last := LastPhoto(s'.segs[j], id); last.Some? && !last.value.tombstone) ==> Has(s'.pass.kept, id)
      {
        if id == PendingId(s) {
          PutPlaces(s, j);
        } else {
          assert LivesIn(s.index.primary, id, j);
        }
      }
    }
  }

  /** Nothing was looked up yet, or neither the pass nor its segment nor, but for a photo
      removed, the index has changed. */
  ghost predicate PassStill(s: Store, s': Store) {
    s'.pass.Checking? ==>
      || s'.pass.checked == 0
      || (&& s'.pass == s.pass && s.pass.segment < |s.segs| && |s.segs| <= |s'.segs|
          && s'.segs[s.pass.segment] == s.segs[s.pass.segment]
          && forall id | id in s'.index.primary ::
               id in s.index.primary && s'.index.primary[id] == s.index.primary[id])
  }

  lemma PlacedStill(s: Store, s': Store)
    requires PlacedInv(s) && PassStill(s, s')
    ensures PlacedInv(s')
  {
    hide FirstSeen, LastPhoto, Name;
    if s'.pass.Checking? && s'.pass.segment < |s'.segs| {
      var j := s'.pass.segment;
      forall id | Looked(s'.pass, id) && LivesIn(s'.index.primary, id, j)
        ensures (var last := LastPhoto(s'.segs[j], id); last.Some? && !last.value.tombstone) ==> Has(s'.pass.kept, id)
      {
        assert s'.pass.checked != 0;
        assert Looked(s.pass, id) && LivesIn(s.index.primary, id, j);
      }
    }
  }

  lemma StillBehindPass(s: Store, s': Store)
    requires s'.pass == s.pass && s'.index == s.index && |s.segs| <= |s'.segs|
    requires s.pass.Checking? ==> s.pass.segment < |s.segs| && s'.segs[s.pass.segment] == s.segs[s.pass.segment]
    ensures PassStill(s, s')
  {
  }

  lemma RotateStep(crc: Checksum, s: Store)
    requires s.segs != [] && Enabled(crc, s, Rotate)
    ensures Do(crc, s, Rotate) == s.(segs := s.segs + [[]])
  {
  }

  lemma ClosedStays(segs: seq<seq<Photo>>, p: Photo, u: nat)
    requires u + 1 < |segs|
    ensures AppendTo(segs, p)[u] == segs[u] && (segs + [[]])[u] == segs[u]
    ensures |AppendTo(segs, p)| == |segs|
  {
  }

  lemma StillAfterAppend(crc: Checksum, s: Store, step: Step)
    requires Takes(crc, s, step) && IsAppend(step)
    ensures PassStill(s, Do(crc, s, step))
  {
    AppendStep(crc, s, step);
    PassInSegments(crc, s);
    var p, s' := Written(s, step), Do(crc, s, step);
    hide *;
    if s.pass.Checking? { ClosedStays(s.segs, p, s.pass.segment); }
    StillBehindPass(s, s');
  }

  lemma StillAfterRotate(crc: Checksum, s: Store)
    requires Takes(crc, s, Rotate)
    ensures PassStill(s, Do(crc, s, Rotate))
  {
    RotateStep(crc, s);
    PassInSegments(crc, s);
    var s' := Do(crc, s, Rotate);
    hide *;
    StillBehindPass(s, s');
  }

  /** After an index update that is no put, or nothing of the kind. */
  lemma StillAfterOp(s: Store, s': Store, id: string)
    requires s'.segs == s.segs && s'.pass == s.pass && (s'.index == s.index || s'.index == Remove(s.index, id))
    requires s.pass.Checking? ==> s.pass.segment < |s.segs|
    ensures PassStill(s, s')
  {
  }

  lemma RenameEnds(crc: Checksum, s: Store)
    requires s.segs != [] && Enabled(crc, s, RenameSegment)
    ensures Do(crc, s, RenameSegment).pass.Between?
  {
    hide RenameSound, BumpSnapshot, BumpMark, FirstSeen;
  }

  lemma PassInSegments(crc: Checksum, s: Store)
    requires Inv(crc, s)
    ensures s.pass.Checking? ==> s.pass.segment + 1 < |s.segs|
  {
    hide LogInv, SnapshotInv, MarkInv, BlobInv, PendingInv, PlacedInv, Clean, KeptInv, Located, FirstSeen;
  }

  lemma StillAfterStep(crc: Checksum, s: Store, step: Step)
    requires Takes(crc, s, step) && !step.CheckPhoto? && !step.IndexPut?
    ensures PassStill(s, Do(crc, s, step))
  {
    PassInSegments(crc, s);
    var s' := Do(crc, s, step);
    if IsAppend(step) {
      StillAfterAppend(crc, s, step);
    } else if step.Rotate? {
      StillAfterRotate(crc, s);
    } else {
      hide Inv, Do, Enabled, Remove, Put;
      if IsMarkStep(step) {
        MarkStep(crc, s, step);
      } else if IsPassStep(step) {
        PassStep(crc, s, step);
      } else if IsOpStep(step) {
        OpStep(crc, s, step);
        StillAfterOp(s, s', if step.IndexRemove? then s.op.id else "");
      } else if step.Restart? {
        RestartEnds(crc, s);
      } else {
        RenameEnds(crc, s);
      }
    }
  }

  lemma PlacedKept(crc: Checksum, s: Store, step: Step)
    requires Takes(crc, s, step)
    ensures PlacedInv(Do(crc, s, step))
  {
    hide Do, Enabled, LogInv, SnapshotInv, MarkInv, PassInv, BlobInv, PlacedInv, PendingInv, PassStill;
    if step.CheckPhoto? {
      PlacedAfterCheck(crc, s);
    } else if step.IndexPut? {
      PlacedAfterPut(crc, s);
    } else {
      StillAfterStep(crc, s, step);
      PlacedStill(s, Do(crc, s, step));
    }
  }

  /** Every step keeps the invariant. */
  lemma StepKeepsInv(crc: Checksum, s: Store, step: Step)
    requires Takes(crc, s, step)
    ensures Inv(crc, Do(crc, s, step))
  {
    hide Do, Enabled, LogInv, SnapshotInv, MarkInv, PassInv, PendingInv, PlacedInv, BlobInv;
    LogKept(crc, s, step);
    SnapshotKept(crc, s, step);
    MarkKept(crc, s, step);
    PassKept(crc, s, step);
    PendingKept(crc, s, step);
    PlacedKept(crc, s, step);
    if !Do(crc, s, step).sharedDelete { BlobsKept(crc, s, step); }
  }

  lemma InitInv(crc: Checksum)
    ensures Inv(crc, INIT)
  {
    forall id ensures HomeOf(INIT.segs, id) == Nowhere {
      HomeIsNowhere(INIT.segs, id);
    }
  }

  lemma {:induction false} RunKeepsInv(crc: Checksum, s: Store, steps: seq<Step>, s': Store)
    requires Inv(crc, s) && IsRun(crc, s, steps, s')
    ensures Inv(crc, s')
    decreases |steps|
  {
    hide Inv, Do, Enabled;
    if steps != [] {
      StepKeepsInv(crc, s, steps[0]);
      RunKeepsInv(crc, Do(crc, s, steps[0]), steps[1..], s');
    }
  }
}
