/** What the engine promises about recovery, on the bytes of the disk: in every
    reachable state both start-up paths show the photos that memory shows. */
module Recovery {
  import opened Models
  import opened Names
  import opened LogFormat
  import opened LogReader
  import opened LogReplay
  import opened Index
  import opened Compaction
  import opened Engine
  import opened LogQueries
  import opened EngineInvariant
  import opened EngineTheorems
  import opened Operations

  /** The log directory and the snapshot file that a state stands for.  Without a
      snapshot the file may be absent, unreadable or of another version. */
  ghost predicate OnDisk(crc: Checksum, s: Store, files: Directory, file: SnapshotFile) {
    && Holds(crc, files, s.segs)
    && match s.snapshot
       case NoSnapshot => !(file.Stored? && file.version == SNAPSHOT_VERSION)
       case Snapshot(w, off, records, _) => file == Stored(SNAPSHOT_VERSION, Name(w + 1), off, records)
  }

  ghost predicate Reachable(crc: Checksum, s: Store) {
    Reaches(crc, INIT, s)
  }

  lemma ReachableInv(crc: Checksum, s: Store)
    requires Reachable(crc, s)
    ensures Inv(crc, s)
  {
    hide Inv, IsRun;
    var steps :| IsRun(crc, INIT, steps, s);
    InitInv(crc);
    RunKeepsInv(crc, INIT, steps, s);
  }

  /** The start-up paths on bytes are those of the state machine. */
  lemma LoadOnDisk(crc: Checksum, s: Store, files: Directory, file: SnapshotFile)
    requires OnDisk(crc, s, files, file)
    requires s.snapshot.Snapshot? ==> s.snapshot.segment < |s.segs|
    ensures Load(crc, EMPTY, files, file) == LoadFrom(crc, s.segs, s.snapshot)
    ensures PutAll(EMPTY, ReplayAll(crc, files)) == LoadFrom(crc, s.segs, NoSnapshot)
  {
    hide Name, Holds, ReplayAll, ReplayAfter, TailFrom, AllLocated, PutAll;
    ReplayAllOfHolds(crc, files, s.segs);
    match s.snapshot
    case NoSnapshot =>
    case Snapshot(w, off, records, _) => ReplayAfterOfHolds(crc, files, s.segs, w, off);
  }

  /** In every reachable state, so after a crash at any step of the writer, of a
      snapshot or of a compaction pass, a full replay of the log shows exactly the
      photos that memory shows once its pending update is made: no deleted photo comes
      back and no live one is lost. */
  lemma FullReplayShowsMemory(crc: Checksum, s: Store, files: Directory, file: SnapshotFile)
    requires Reachable(crc, s) && OnDisk(crc, s, files, file)
    ensures Live(PutAll(EMPTY, ReplayAll(crc, files)).primary) == Live(After(s).primary)
    ensures !Pending(s) ==> After(s) == s.index
  {
    hide LoadFrom, Agrees, SnapshotInv, MarkInv, PassInv, BlobInv, PendingInv, OnDisk, Reachable, Live;
    ReachableInv(crc, s);
    assert s.snapshot.Snapshot? ==> s.snapshot.segment < |s.segs| by { SnapshotInSegments(crc, s); }
    LoadOnDisk(crc, s, files, file);
    LogShowsMemory(crc, s);
  }

  lemma LogShowsMemory(crc: Checksum, s: Store)
    requires LogInv(s)
    ensures Live(LoadFrom(crc, s.segs, NoSnapshot).primary) == Live(After(s).primary)
  {
    hide LoadFrom, Agrees, Live;
    var bare := s.(snapshot := NoSnapshot);
    NoSnapshotInv(crc, s.segs);
    assert After(bare) == After(s);
    UsableIff(crc, bare);
  }

  /** All entries of an index, deleted photos included, without the stale bookkeeping. */
  function Whole(primary: Primary): Primary {
    map id | id in primary :: Settled(primary[id])
  }

  /** A full replay gives back the whole map, tombstones included, if and only if memory has
      an entry for exactly the photos of which the log has a record.  For a live photo that
      is always so: what can differ is a deleted photo, gone from memory with its tombstone
      still in the log, which a replay lists again, or one listed by an earlier replay
      whose tombstone was compacted away. */
  lemma ReplayShowsWholeIff(crc: Checksum, s: Store, files: Directory, file: SnapshotFile)
    requires Reachable(crc, s) && OnDisk(crc, s, files, file)
    ensures var replay, memory := PutAll(EMPTY, ReplayAll(crc, files)).primary, After(s).primary;
            && (Whole(replay) == Whole(memory) <==> forall id :: id in memory <==> HomeOf(s.segs, id).At?)
            && (forall id | HomeOf(s.segs, id).At? && !HomeOf(s.segs, id).photo.tombstone :: id in memory)
            && (forall id | IsLive(memory, id) :: HomeOf(s.segs, id).At?)
  {
    hide *;
    ReachableInv(crc, s);
    SnapshotInSegments(crc, s);
    LogOnDisk(crc, s, files, file);
    var replay, memory := PutAll(EMPTY, ReplayAll(crc, files)).primary, After(s).primary;
    forall id
      ensures id in replay <==> HomeOf(s.segs, id).At?
      ensures id in replay && id in memory ==> Settled(replay[id]) == Settled(memory[id])
      ensures HomeOf(s.segs, id).At? && !HomeOf(s.segs, id).photo.tombstone ==> id in memory
      ensures IsLive(memory, id) ==> HomeOf(s.segs, id).At?
    {
      ReplayReads(crc, s.segs, id);
      FullReplayAgrees(crc, s.segs, id);
      MemoryAgrees(crc, s, id);
      SameEntry(s.segs, replay, memory, id);
    }
    SameWhole(replay, memory);
  }

  lemma LogOnDisk(crc: Checksum, s: Store, files: Directory, file: SnapshotFile)
    requires OnDisk(crc, s, files, file)
    ensures ReplayAll(crc, files) == AllLocated(crc, s.segs, 0)
  {
    hide Holds, Name, ReplayAll, AllLocated;
    ReplayAllOfHolds(crc, files, s.segs);
  }

  lemma MemoryAgrees(crc: Checksum, s: Store, id: string)
    requires Inv(crc, s)
    ensures Agrees(s.segs, After(s).primary, id)
  {
    hide SnapshotInv, MarkInv, PassInv, BlobInv, PendingInv, PlacedInv, Agrees;
  }

  /** Two entries that agree with the log on a photo it has. */
  lemma SameEntry(segs: seq<seq<Photo>>, a: Primary, b: Primary, id: string)
    requires Agrees(segs, a, id) && Agrees(segs, b, id)
    ensures HomeOf(segs, id).At? && id in a && id in b ==> Settled(a[id]) == Settled(b[id])
    ensures HomeOf(segs, id).At? && !HomeOf(segs, id).photo.tombstone ==> id in b
    ensures IsLive(b, id) ==> HomeOf(segs, id).At?
  {
    hide HomeOf, Name;
  }

  lemma SameWhole(a: Primary, b: Primary)
    requires forall id :: id in a && id in b ==> Settled(a[id]) == Settled(b[id])
    ensures Whole(a) == Whole(b) <==> forall id :: id in a <==> id in b
  {
    if Whole(a) == Whole(b) {
      forall id ensures id in a <==> id in b {
        assert id in Whole(a) <==> id in Whole(b);
      }
    }
  }

  lemma SnapshotInSegments(crc: Checksum, s: Store)
    requires Inv(crc, s)
    ensures s.snapshot.Snapshot? ==> s.snapshot.segment < |s.segs|
  {
  }

  /** In every reachable state, so after a crash at any step and in particular after any
      number of renames of a compaction pass, loading the snapshot and replaying the log
      behind its watermark shows exactly the photos of memory if and only if the snapshot
      is usable: it shows no photo that the log has lost all records of, and it holds the
      photos whose last record is in the watermark's segment where the replay from the
      old offset does not read it. */
  lemma SnapshotRestartIff(crc: Checksum, s: Store, files: Directory, file: SnapshotFile)
    requires Reachable(crc, s) && OnDisk(crc, s, files, file)
    ensures Live(Load(crc, EMPTY, files, file).primary) == Live(After(s).primary) <==>
            Usable(crc, s.segs, s.snapshot)
  {
    hide LoadFrom, LogInv, SnapshotInv, MarkInv, PassInv, BlobInv, PendingInv, OnDisk, Reachable, Usable, Live, Load;
    ReachableInv(crc, s);
    SnapshotInSegments(crc, s);
    LoadOnDisk(crc, s, files, file);
    UsableIff(crc, s);
  }

  /** One rename, at any point of a pass: the snapshot on disk is usable after it if and
      only if a restart right then would show the photos of memory, which a rename does
      not change. */
  lemma RenameKeepsSnapshotIff(crc: Checksum, s: Store, files: Directory, file: SnapshotFile)
    requires Reachable(crc, s) && s.segs != [] && Enabled(crc, s, RenameSegment)
    requires OnDisk(crc, Do(crc, s, RenameSegment), files, file)
    ensures var t := Do(crc, s, RenameSegment);
            Live(Load(crc, EMPTY, files, file).primary) == Live(After(s).primary) <==>
            Usable(crc, t.segs, t.snapshot)
  {
    hide OnDisk, Usable, Live, Load, Reaches;
    var t := Do(crc, s, RenameSegment);
    ReachesStep(crc, INIT, s, RenameSegment);
    assert After(t) == After(s);
    SnapshotRestartIff(crc, t, files, file);
  }

  /** A snapshot behind whose watermark no segment was rewritten since is usable.  The
      watermark may be older than the copy of the index, and its offset may have been
      read after a rotation. */
  lemma SnapshotRestartShowsMemory(crc: Checksum, s: Store, files: Directory, file: SnapshotFile)
    requires Reachable(crc, s) && OnDisk(crc, s, files, file) && RestartSafe(s)
    ensures Usable(crc, s.segs, s.snapshot)
    ensures Live(Load(crc, EMPTY, files, file).primary) == Live(After(s).primary)
    ensures Live(Load(crc, EMPTY, files, file).primary) == Live(PutAll(EMPTY, ReplayAll(crc, files)).primary)
  {
    hide LogInv, SnapshotInv, MarkInv, PassInv, BlobInv, PendingInv, OnDisk, Reachable, Usable, Live, Load;
    ReachableInv(crc, s);
    SafeIsUsable(crc, s);
    SnapshotRestartIff(crc, s, files, file);
    FullReplayShowsMemory(crc, s, files, file);
  }

  /** The old snapshot survives a crash in the middle of a pass when its watermark lies
      in the active segment. */
  lemma ActiveWatermarkIsSafe(crc: Checksum, s: Store)
    requires Reachable(crc, s)
    requires s.segs != [] && s.snapshot.Snapshot? && s.snapshot.segment == Active(s)
    ensures RestartSafe(s)
  {
    hide Reachable;
    ReachableInv(crc, s);
  }

  // ----------------------------------------- the snapshot that ends every pass

  predicate MarkSafe(m: Mark) {
    m.NoMark? || m.rewritten <= m.segment
  }

  /** Without a rename neither a snapshot on disk nor one in progress becomes unsafe. */
  lemma {:induction false} QuietRunStaysSafe(crc: Checksum, s: Store, steps: seq<Step>, s': Store)
    requires IsRun(crc, s, steps, s') && MarkSafe(s.mark)
    requires forall i :: 0 <= i < |steps| ==> !steps[i].RenameSegment?
    ensures MarkSafe(s'.mark) && (RestartSafe(s) ==> RestartSafe(s'))
    decreases |steps|
  {
    hide Lines, Line, Name, Scan, LoadFrom, CheckNext, FirstSeen, AppendTo, AppendedMeta, Put, Remove, Usable;
    hide Fresh, Unshared, Lists;
    if steps != [] {
      var t := Do(crc, s, steps[0]);
      assert MarkSafe(t.mark) && (RestartSafe(s) ==> RestartSafe(t));
      forall i | 0 <= i < |steps[1..]| ensures !steps[1..][i].RenameSegment? {
        assert steps[1..][i] == steps[i + 1];
      }
      QuietRunStaysSafe(crc, t, steps[1..], s');
    }
  }

  /** A snapshot begun after the last rename of a pass, however unsafe the snapshot
      before it was and whatever else happens while it is taken, makes the next restart
      safe: this is why every pass ends with one. */
  lemma SnapshotAfterPassIsSafe(crc: Checksum, s: Store, steps: seq<Step>, t: Store)
    requires s.segs != [] && IsRun(crc, Do(crc, s, ReadName), steps, t)
    requires forall i :: 0 <= i < |steps| ==> !steps[i].RenameSegment?
    requires t.segs != [] && Enabled(crc, t, SaveSnapshot)
    ensures RestartSafe(Do(crc, t, SaveSnapshot))
  {
    hide IsRun;
    QuietRunStaysSafe(crc, Do(crc, s, ReadName), steps, t);
  }

  // ------------------------------------------------------------ blobs and log

  /** A run in which no tombstoned entry, which only a replay puts into the index, is
      deleted again while another live photo has its content. */
  ghost predicate IsCarefulRun(crc: Checksum, s: Store, steps: seq<Step>, s': Store)
    decreases |steps|
  {
    if steps == [] then s == s'
    else
      && s.segs != [] && Enabled(crc, s, steps[0])
      && (steps[0].AppendTombstone? ==>
            IsLive(s.index.primary, steps[0].id) || Unshared(s.index.primary, steps[0].id))
      && IsCarefulRun(crc, Do(crc, s, steps[0]), steps[1..], s')
  }

  /** In such a run no delete takes the content of another live photo: a live entry
      shares its content with none. */
  lemma {:induction false} CarefulRunSharesNothing(crc: Checksum, s: Store, steps: seq<Step>, s': Store)
    requires Inv(crc, s) && !s.sharedDelete && IsCarefulRun(crc, s, steps, s')
    ensures IsRun(crc, s, steps, s') && Inv(crc, s') && !s'.sharedDelete
    decreases |steps|
  {
    hide LogInv, SnapshotInv, MarkInv, PassInv, PendingInv, BlobInv, Enabled, Unshared;
    if steps != [] {
      var t := Do(crc, s, steps[0]);
      StepKeepsInv(crc, s, steps[0]);
      CarefulStep(crc, s, steps[0]);
      CarefulRunSharesNothing(crc, t, steps[1..], s');
    }
  }

  lemma CarefulStep(crc: Checksum, s: Store, step: Step)
    requires BlobInv(s) && !s.sharedDelete && s.segs != [] && Enabled(crc, s, step)
    requires step.AppendTombstone? ==> IsLive(s.index.primary, step.id) || Unshared(s.index.primary, step.id)
    ensures !Do(crc, s, step).sharedDelete
  {
    hide Lines, Line, Scan, LoadFrom, Usable, Name, HaveBlobs, HaveHashes, NoneHas;
    if step.AppendTombstone? && IsLive(s.index.primary, step.id) { LiveEntryIsUnshared(s, step.id); }
  }

  /** For a live entry the guard always holds. */
  lemma LiveEntryIsUnshared(s: Store, id: string)
    requires BlobInv(s) && s.op.Idle? && IsLive(s.index.primary, id)
    ensures Unshared(s.index.primary, id)
  {
    assert After(s) == s.index;
    forall other | other in s.index.primary && other != id && IsLive(s.index.primary, other)
      ensures s.index.primary[other].photo.contentHash != s.index.primary[id].photo.contentHash
    {
      assert IsLive(After(s).primary, other) && IsLive(After(s).primary, id);
    }
  }

  /** At every step of such a run, so after a crash at any step of an upload or a delete:
      every live photo that the log can bring back has its blob, and no two share their
      content; and so has every live entry of the index. */
  lemma LivePhotosHaveBlobs(crc: Checksum, steps: seq<Step>, s: Store, files: Directory, file: SnapshotFile)
    requires IsCarefulRun(crc, INIT, steps, s) && OnDisk(crc, s, files, file)
    ensures var recovered := PutAll(EMPTY, ReplayAll(crc, files)).primary;
            && (forall id :: IsLive(recovered, id) ==> recovered[id].photo.contentHash in s.blobs)
            && (forall a, b | IsLive(recovered, a) && IsLive(recovered, b) ::
                  recovered[a].photo.contentHash == recovered[b].photo.contentHash ==> a == b)
    ensures forall id :: IsLive(s.index.primary, id) ==> s.index.primary[id].photo.contentHash in s.blobs
  {
    hide LoadFrom, Agrees, SnapshotInv, MarkInv, PassInv, PendingInv, OnDisk, PutAll, ReplayAll, HomeOf;
    hide IsCarefulRun, IsRun, LogInv;
    InitInv(crc);
    CarefulRunSharesNothing(crc, INIT, steps, s);
    assert Reachable(crc, s);
    FullReplayShowsMemory(crc, s, files, file);
    var a, b := After(s).primary, PutAll(EMPTY, ReplayAll(crc, files)).primary;
    forall id | IsLive(b, id) ensures IsLive(a, id) && a[id].photo == b[id].photo {
      assert id in Live(b);
      assert id in Live(a) && Live(a)[id] == Live(b)[id];
    }
  }

  /** At every step of every run, each live entry of the index has a record in the log,
      also the entry of a photo that is being deleted or updated. */
  lemma LiveEntriesAreLogged(crc: Checksum, s: Store, id: string)
    requires Reachable(crc, s) && IsLive(s.index.primary, id)
    ensures HomeOf(s.segs, id).At?
  {
    hide HomeOf, Name, SnapshotInv, MarkInv, PassInv, BlobInv, Reachable;
    ReachableInv(crc, s);
    if !Pending(s) || PendingId(s) != id { assert Agrees(s.segs, After(s).primary, id); }
  }
}
