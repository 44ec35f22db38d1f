/** Whole histories of a server: any sequence of uploads, thumbnail updates, deletes,
    snapshots, compaction passes and restarts, each completed before the next. */
module History {
  import opened Basics
  import opened Models
  import opened Names
  import opened LogFormat
  import opened LogReader
  import opened LogReplay
  import opened Index
  import opened Compaction
  import opened Engine
  import opened LogQueries
  import opened EngineInvariant
  import opened EngineTheorems
  import opened Recovery
  import opened Operations
  import opened Services

  datatype Event =
    | Upload(photo: Photo)
    | Thumbnail(id: string, paths: seq<Bytes>)
    | Delete(id: string)
    | Snapshot(records: seq<PhotoMeta>)
    | Compact(skipped: set<nat>, records: seq<PhotoMeta>)
    | Restart

  /** When the event changes anything: a duplicate upload, an update or delete of an
      unknown photo leave everything as it is, and a compaction pass that skips segments
      counts where it drops no tombstone of a photo that one of them still has. */
  ghost predicate Applies(s: Store, e: Event) {
    match e
    case Upload(p) => !ContainsHash(s.index, p.contentHash) && !p.tombstone && Fresh(s, p.photoId)
    case Thumbnail(id, _) => id in s.index.primary
    case Delete(id) => id in s.index.primary
    case Snapshot(records) => Lists(records, s.index.primary)
    case Compact(skipped, records) =>
      |s.segs| > 1 && Lists(records, s.index.primary) && SkipSound(s.segs, Active(s), skipped)
    case Restart => s.snapshot.Snapshot? ==> s.snapshot.segment < |s.segs|
  }

  ghost function Happen(crc: Checksum, limit: nat, s: Store, e: Event): Store
    requires s.segs != []
  {
    if !Applies(s, e) then s
    else
      match e
      case Upload(p) => Uploaded(crc, s, p, Fills(crc, limit, s, p))
      case Thumbnail(id, paths) =>
        Thumbnailed(crc, s, id, paths, Fills(crc, limit, s, s.index.primary[id].photo.(thumbnailPaths := paths)))
      case Delete(id) => Deleted(s, id, Fills(crc, limit, s, s.index.primary[id].photo.(tombstone := true)))
      case Snapshot(records) => Snapshotted(crc, s, records)
      case Compact(skipped, records) => FullyCompacted(crc, s, skipped, records)
      case Restart => Restarted(crc, limit, s)
  }

  /** The states of a history whose segment counter stays below the bound. */
  ghost predicate IsHistory(crc: Checksum, limit: nat, s: Store, es: seq<Event>, s': Store)
    decreases |es|
  {
    if es == [] then s == s'
    else s.segs != [] && |s.segs| < MAX_COUNTER && IsHistory(crc, limit, Happen(crc, limit, s, es[0]), es[1..], s')
  }

  ghost predicate Sound(crc: Checksum, s: Store) {
    Reachable(crc, s) && AtRest(crc, s) && RestartSafe(s)
  }

  lemma OneEvent(crc: Checksum, limit: nat, s: Store, e: Event)
    requires Sound(crc, s) && s.segs != [] && |s.segs| < MAX_COUNTER
    ensures Reaches(crc, s, Happen(crc, limit, s, e))
  {
    SafeIsUsable(crc, s);
    hide Name, Lines, Line, Inv, Reachable, Reaches, RestartSafe, Lists, Fresh, Unshared, Fills, Usable;
    if !Applies(s, e) {
      ReachesItself(crc, s);
      return;
    }
    match e
    case Upload(p) => UploadReaches(crc, s, p, Fills(crc, limit, s, p));
    case Thumbnail(id, paths) =>
      ThumbnailReaches(crc, s, id, paths, Fills(crc, limit, s, s.index.primary[id].photo.(thumbnailPaths := paths)));
    case Delete(id) =>
      DeleteReaches(crc, s, id, Fills(crc, limit, s, s.index.primary[id].photo.(tombstone := true)));
    case Snapshot(records) => SnapshotReaches(crc, s, records);
    case Compact(skipped, records) => CompactionReaches(crc, s, skipped, records);
    case Restart => RestartReaches(crc, limit, s);
  }

  lemma EventRests(crc: Checksum, limit: nat, s: Store, e: Event)
    requires s.op.Idle? && s.mark.NoMark? && s.pass.Resting? && RestartSafe(s) && s.segs != []
    ensures var s' := Happen(crc, limit, s, e);
            s'.op.Idle? && s'.mark.NoMark? && s'.pass.Resting? && RestartSafe(s')
  {
    hide Lines, Line, Name, Lists, Fresh, Unshared, Fills, LoadFrom, CompactedUpTo, AppendTo, AppendedMeta;
  }

  lemma {:induction false} HistoryIsSound(crc: Checksum, limit: nat, s: Store, es: seq<Event>, s': Store)
    requires Sound(crc, s) && IsHistory(crc, limit, s, es, s')
    ensures Sound(crc, s')
    decreases |es|
  {
    hide Happen, Inv, Reaches, RestartSafe;
    if es != [] {
      var t := Happen(crc, limit, s, es[0]);
      OneEvent(crc, limit, s, es[0]);
      EventRests(crc, limit, s, es[0]);
      ReachesKeepsInv(crc, s, t);
      ReachesOnward(crc, INIT, s, t);
      HistoryIsSound(crc, limit, t, es[1..], s');
    }
  }

  lemma InitIsSound(crc: Checksum)
    ensures Sound(crc, INIT)
  {
    hide Inv, Reaches;
    InitInv(crc);
    ReachesItself(crc, INIT);
  }

  /** Over every history, both start-up paths show exactly the live photos in memory:
      the snapshot with the log behind its watermark, and the replay of the whole log. */
  lemma BothRestartsShowMemory(
      crc: Checksum, limit: nat, es: seq<Event>, s: Store, files: Directory, file: SnapshotFile)
    requires IsHistory(crc, limit, INIT, es, s) && OnDisk(crc, s, files, file)
    ensures Live(Load(crc, EMPTY, files, file).primary) == Live(s.index.primary)
    ensures Live(PutAll(EMPTY, ReplayAll(crc, files)).primary) == Live(s.index.primary)
  {
    hide IsHistory, Inv, Reachable, RestartSafe, OnDisk, Load, ReplayAll, PutAll, Live;
    InitIsSound(crc);
    HistoryIsSound(crc, limit, INIT, es, s);
    FullReplayShowsMemory(crc, s, files, file);
    SnapshotRestartShowsMemory(crc, s, files, file);
  }

  /** Over every history in which no delete was of an entry whose content another live
      photo had, every live photo has its blob, in memory and after either restart. */
  lemma HistoryKeepsBlobs(crc: Checksum, limit: nat, es: seq<Event>, s: Store, id: string)
    requires IsHistory(crc, limit, INIT, es, s) && !s.sharedDelete && IsLive(s.index.primary, id)
    ensures s.index.primary[id].photo.contentHash in s.blobs
  {
    hide IsHistory, Reachable, RestartSafe, LogInv, SnapshotInv, MarkInv, PassInv, PendingInv;
    InitIsSound(crc);
    HistoryIsSound(crc, limit, INIT, es, s);
  }

  /** What each event does to memory, log, snapshot and blobs. */
  lemma EventDoes(crc: Checksum, limit: nat, s: Store, e: Event)
    requires s.segs != [] && Keyed(s.index.primary)
    ensures var s', n := Happen(crc, limit, s, e), |s.segs| - 1;
            match e
            case Upload(p) =>
              if !ContainsHash(s.index, p.contentHash) && !p.tombstone && Fresh(s, p.photoId) then
                && s'.index.primary.Keys == s.index.primary.Keys + {p.photoId} && s'.index.primary[p.photoId].photo == p
                && (forall id | id in s.index.primary && id != p.photoId ::
                      s'.index.primary[id] == s.index.primary[id])
                && s'.blobs == s.blobs + {p.contentHash} && s'.snapshot == s.snapshot
                && LastPhoto(s'.segs[n], p.photoId) == Some(p)
              else s' == s
            case Thumbnail(id, paths) =>
              if id in s.index.primary then
                && s'.index.primary.Keys == s.index.primary.Keys
                && s'.index.primary[id].photo == s.index.primary[id].photo.(thumbnailPaths := paths)
                && (forall other | other in s.index.primary && other != id ::
                      s'.index.primary[other] == s.index.primary[other])
                && s'.blobs == s.blobs && s'.snapshot == s.snapshot
                && LastPhoto(s'.segs[n], id) == Some(s'.index.primary[id].photo)
              else s' == s
            case Delete(id) =>
              if id in s.index.primary then
                && s'.index.primary == s.index.primary - {id}
                && s'.blobs == s.blobs - {s.index.primary[id].photo.contentHash} && s'.snapshot == s.snapshot
                && LastPhoto(s'.segs[n], id) == Some(s.index.primary[id].photo.(tombstone := true))
              else s' == s
            case Snapshot(records) =>
              if Lists(records, s.index.primary) then
                && s'.segs == s.segs && s'.index == s.index && s'.blobs == s.blobs
                && s'.snapshot == Engine.Snapshot(n, |Lines(crc, s.segs[n])|, records, 0)
              else s' == s
            case Compact(skipped, records) =>
              if n > 0 && Lists(records, s.index.primary) && SkipSound(s.segs, n, skipped) then
                && s'.index == s.index && s'.blobs == s.blobs && |s'.segs| == |s.segs|
                && (forall j: nat | j < |s.segs| :: s'.segs[j] ==
                      if j < n && j !in skipped then CompactedSegment(crc, s.index.primary, s.segs, j) else s.segs[j])
                && s'.snapshot == Engine.Snapshot(n, |Lines(crc, s.segs[n])|, records, 0)
              else s' == s
            case Restart =>
              if s.snapshot.Snapshot? ==> s.snapshot.segment < |s.segs| then
                && s'.index == LoadFrom(crc, s.segs, s.snapshot) && s'.blobs == s.blobs && s'.snapshot == s.snapshot
                && s'.segs == if |Lines(crc, s.segs[n])| >= limit then s.segs + [[]] else s.segs
              else s' == s
  {
    hide Lines, Line, Name, Lists, Fresh, Unshared, Fills, LoadFrom, LastPhoto, CompactedSegment, SkipSound;
    if Applies(s, e) {
      match e
      case Upload(p) => LastPhotoSnoc(s.segs[|s.segs| - 1], p, p.photoId);
      case Thumbnail(id, paths) =>
        LastPhotoSnoc(s.segs[|s.segs| - 1], s.index.primary[id].photo.(thumbnailPaths := paths), id);
      case Delete(id) => LastPhotoSnoc(s.segs[|s.segs| - 1], s.index.primary[id].photo.(tombstone := true), id);
      case Compact(skipped, records) =>
        forall j: nat | j < |s.segs| {
          CompactedUpToAt(crc, s.index.primary, s.segs, Active(s), skipped, j);
        }
      case _ =>
    }
  }
}
