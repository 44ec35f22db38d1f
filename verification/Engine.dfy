/** The whole engine as a state machine: the disk (segments, snapshot, blobs), the
    memory (index), and the steps of the writer, of a snapshot in progress, of a
    compaction pass, and of a crash with restart, interleaved in any order. */
module Engine {
  import opened Basics
  import opened Models
  import opened Names
  import opened LogFormat
  import opened LogReader
  import opened LogReplay
  import opened Index
  import opened Compaction

  /** How far the writer's current operation has come.  Writer operations are serial:
      each starts when the one before has ended. */
  datatype Op =
    | Idle
    | Staged(hash: string)         // upload: not a duplicate, bytes in a temporary file
    | Committed(hash: string)      // upload: blob renamed into the store
    | Appended(m: PhotoMeta)       // record appended, index not updated yet
    | Buried(id: string)           // delete: tombstone appended, index not updated yet
    | Unlinking(hash: string)      // delete: index entry gone, blob not removed yet

  /** The snapshot on disk.  `rewritten` is a history variable that the code does not
      store: segments from that one on were not rewritten since the watermark's segment
      name was read.  Segments are counted from 0, their file names from 1. */
  datatype Snapshot =
    | NoSnapshot
    | Snapshot(segment: nat, offset: nat, records: seq<PhotoMeta>, rewritten: nat)

  /** A snapshot in progress: the name of the active segment is read, then its offset,
      then the index is copied, then the file is renamed into place. */
  datatype Mark =
    | NoMark
    | Named(segment: nat, rewritten: nat)
    | Placed(segment: nat, offset: nat, rewritten: nat)
    | Copied(segment: nat, offset: nat, records: seq<PhotoMeta>, rewritten: nat)

  /** A compaction pass over the segments below `limit`, the active one at its start:
      between two segments, or with the records of one segment read and the first
      `checked` of its photos looked up in the index.  Segments whose compaction failed
      were skipped. */
  datatype Pass =
    | Resting
    | Between(next: nat, limit: nat, skipped: set<nat>)
    | Checking(segment: nat, limit: nat, records: seq<PhotoMeta>, checked: nat, kept: seq<Photo>, skipped: set<nat>)

  /** `sharedDelete` is a history variable as well: some delete was of an entry whose
      content another live photo had. */
  datatype Store = Store(
    segs: seq<seq<Photo>>,
    snapshot: Snapshot,
    blobs: set<string>,
    index: Entries,
    op: Op,
    mark: Mark,
    pass: Pass,
    sharedDelete: bool)

  const INIT := Store([[]], NoSnapshot, {}, EMPTY, Idle, NoMark, Resting, false)

  /** The active segment. */
  function Active(s: Store): nat
    requires s.segs != []
  {
    |s.segs| - 1
  }

  /** What `append` returns for `p`. */
  function AppendedMeta(crc: Checksum, s: Store, p: Photo): PhotoMeta
    requires s.segs != []
  {
    var n := Active(s);
    Place(p, Name(n + 1), |Lines(crc, s.segs[n])|, |Line(crc, p)|)
  }

  /** The index when the pending update, if any, is made. */
  function After(s: Store): Entries {
    match s.op
    case Appended(m) => Put(s.index, m)
    case Buried(id) => Remove(s.index, id)
    case _ => s.index
  }

  predicate Pending(s: Store) {
    s.op.Appended? || s.op.Buried?
  }

  /** The photo of the pending update. */
  function PendingId(s: Store): string
    requires Pending(s)
  {
    if s.op.Appended? then s.op.m.photo.photoId else s.op.id
  }

  predicate IsLive(primary: Primary, id: string) {
    id in primary && !primary[id].photo.tombstone
  }

  /** No other live photo has the content of this one. */
  predicate Unshared(primary: Primary, id: string)
    requires id in primary
  {
    forall other :: other in primary && other != id && IsLive(primary, other) ==>
      primary[other].photo.contentHash != primary[id].photo.contentHash
  }

  predicate Mentions(ms: seq<PhotoMeta>, id: string) {
    exists i :: 0 <= i < |ms| && ms[i].photo.photoId == id
  }

  /** The identifier occurs nowhere in memory or on disk. */
  predicate Fresh(s: Store, id: string) {
    && id !in s.index.primary
    && (forall j :: 0 <= j < |s.segs| ==> LastPhoto(s.segs[j], id).None?)
    && (s.snapshot.Snapshot? ==> !Mentions(s.snapshot.records, id))
    && (s.mark.Copied? ==> !Mentions(s.mark.records, id))
  }

  // ------------------------------------------------------------------ restart

  /** What start-up loads from the segments and the snapshot. */
  function LoadFrom(crc: Checksum, segs: seq<seq<Photo>>, snapshot: Snapshot): Entries
    requires snapshot.Snapshot? ==> snapshot.segment < |segs|
  {
    match snapshot
    case NoSnapshot => PutAll(EMPTY, AllLocated(crc, segs, 0))
    case Snapshot(w, off, records, _) => PutAll(PutAll(EMPTY, records), TailFrom(crc, segs, w, off))
  }

  /** A replay of the segment from the offset, which need no longer be a boundary, reads
      a record of the photo. */
  ghost predicate ReadsFrom(crc: Checksum, ps: seq<Photo>, off: nat, id: string) {
    exists i :: 0 <= i <= |ps| && SeeksTo(crc, ps, off, i) && LastPhoto(ps[i..], id).Some?
  }

  /** The last record of the photo, if any, is before the watermark's segment, or in it
      and out of reach of the offset. */
  ghost predicate Unread(crc: Checksum, segs: seq<seq<Photo>>, w: nat, off: nat, id: string)
    requires w < |segs|
  {
    match HomeOf(segs, id)
    case Nowhere => true
    case At(j, _) => j < w || (j == w && !ReadsFrom(crc, segs[w], off, id))
  }

  /** What the snapshot has to hold of a photo: nothing live if the log has no record of
      it, and its last record if that is in the watermark's segment and the replay from
      the old offset does not read it. */
  ghost predicate Restores(crc: Checksum, segs: seq<seq<Photo>>, w: nat, off: nat, past: Primary, id: string)
    requires w < |segs|
  {
    match HomeOf(segs, id)
    case Nowhere => !IsLive(past, id)
    case At(j, p) =>
      j != w || ReadsFrom(crc, segs[w], off, id) ||
      if p.tombstone then !IsLive(past, id)
      else id in past && past[id].photo == p && past[id].segmentId == Name(w + 1)
  }

  /** A restart with this snapshot shows the photos in memory; `Recovery.SnapshotRestartIff` is
      the proof that it does in no other case. */
  ghost predicate Usable(crc: Checksum, segs: seq<seq<Photo>>, snapshot: Snapshot) {
    match snapshot
    case NoSnapshot => true
    case Snapshot(w, off, records, _) =>
      w < |segs| && forall id :: Restores(crc, segs, w, off, PutAll(EMPTY, records).primary, id)
  }

  /** No segment from the snapshot's watermark on was rewritten since. */
  predicate RestartSafe(s: Store) {
    s.snapshot.Snapshot? ==> s.snapshot.rewritten <= s.snapshot.segment
  }

  // -------------------------------------------------------------------- steps

  datatype Step =
    // upload
    | Stage(hash: string) | Commit | AppendUpload(photo: Photo)
    // thumbnail
    | AppendThumbnail(id: string, paths: seq<Bytes>)
    // both
    | IndexPut
    // delete
    | AppendTombstone(id: string) | IndexRemove | RemoveBlob
    // an operation that fails before its append, or whose clean-up fails
    | GiveUp
    // rotation of the active segment
    | Rotate
    // snapshot
    | ReadName | ReadOffset | CopyIndex(records: seq<PhotoMeta>) | SaveSnapshot | LoseSnapshot
    // compaction
    | BeginPass | ReadSegment | CheckPhoto | RenameSegment | SkipSegment | EndPass
    // crash and restart
    | Restart

  /** One photo of `latest.items()`: its record is kept if it is live and current. */
  predicate Keeps(pass: Pass, primary: Primary)
    requires pass.Checking? && pass.checked < |FirstSeen(pass.records)|
  {
    var last := Last(pass.records, FirstSeen(pass.records)[pass.checked]);
    last.Some? && Current(primary, Name(pass.segment + 1), last.value)
  }

  function CheckNext(pass: Pass, primary: Primary): Pass
    requires pass.Checking? && pass.checked < |FirstSeen(pass.records)|
  {
    var last := Last(pass.records, FirstSeen(pass.records)[pass.checked]);
    pass.(checked := pass.checked + 1,
          kept := if Keeps(pass, primary) then pass.kept + [last.value.photo] else pass.kept)
  }

  /** The replay from the mark reads the record whose index update is pending, so that the
      copy need not have it. */
  ghost predicate CopySound(crc: Checksum, s: Store)
    requires s.mark.Placed?
  {
    Pending(s) ==>
      s.mark.segment < |s.segs| && !Unread(crc, s.segs, s.mark.segment, s.mark.offset, PendingId(s))
  }

  /** A look-up of the photo whose index update is pending decides as it should although
      the index is stale: the new record is out of reach of the pass; or an older record is
      dropped; or the new one is kept. */
  ghost predicate LookupSound(s: Store)
    requires s.pass.Checking? && s.pass.checked < |FirstSeen(s.pass.records)|
  {
    Pending(s) && FirstSeen(s.pass.records)[s.pass.checked] == PendingId(s) ==>
      var home := HomeOf(s.segs, PendingId(s));
      home.At? &&
      (home.segment >= s.pass.limit || (Keeps(s.pass, s.index.primary) <==> s.pass.segment == home.segment))
  }

  /** The photo's last record is a tombstone in segment `j`. */
  ghost predicate BuriedIn(segs: seq<seq<Photo>>, j: nat, id: string) {
    var home := HomeOf(segs, id);
    home.At? && home.segment == j && home.photo.tombstone
  }

  /** The rename drops no tombstone of a photo that a skipped segment before still has a
      record of.  Without skipped segments it does not matter. */
  ghost predicate RenameSound(s: Store)
    requires s.pass.Checking?
  {
    var j := s.pass.segment;
    forall u: nat, id | u in s.pass.skipped && u < j && u < |s.segs| && BuriedIn(s.segs, j, id) ::
      LastPhoto(s.segs[u], id).None?
  }

  /** On to the next segment, with this one as it was. */
  function Skip(pass: Pass): Pass
    requires !pass.Resting?
  {
    match pass
    case Between(next, limit, skipped) => Between(next + 1, limit, skipped + {next})
    case Checking(j, limit, _, _, _, skipped) => Between(j + 1, limit, skipped + {j})
  }

  ghost predicate Enabled(crc: Checksum, s: Store, step: Step)
    requires s.segs != []
  {
    match step
    case Stage(h) => s.op.Idle? && !ContainsHash(s.index, h)
    case Commit => s.op.Staged?
    case AppendUpload(p) => s.op.Committed? && p.contentHash == s.op.hash && !p.tombstone && Fresh(s, p.photoId)
    case AppendThumbnail(id, _) => s.op.Idle? && id in s.index.primary
    case IndexPut => s.op.Appended?
    case AppendTombstone(id) => s.op.Idle? && id in s.index.primary
    case IndexRemove => s.op.Buried? && s.op.id in s.index.primary
    case RemoveBlob => s.op.Unlinking?
    case GiveUp => s.op.Staged? || s.op.Committed? || s.op.Unlinking?
    case Rotate => |s.segs| < MAX_COUNTER
    case ReadName => true
    case ReadOffset => s.mark.Named?
    case CopyIndex(records) => s.mark.Placed? && Lists(records, s.index.primary) && CopySound(crc, s)
    case SaveSnapshot => s.mark.Copied?
    case LoseSnapshot => true
    case BeginPass => s.pass.Resting?
    case ReadSegment => s.pass.Between? && s.pass.next < s.pass.limit <= Active(s)
    case CheckPhoto => s.pass.Checking? && s.pass.checked < |FirstSeen(s.pass.records)| && LookupSound(s)
    case RenameSegment =>
      s.pass.Checking? && s.pass.checked == |FirstSeen(s.pass.records)| && s.pass.segment < |s.segs| && RenameSound(s)
    case SkipSegment => s.pass.Checking? || (s.pass.Between? && s.pass.next < s.pass.limit)
    case EndPass => !s.pass.Resting?
    case Restart => Usable(crc, s.segs, s.snapshot)
  }

  function Max(a: nat, b: nat): nat {
    if a <= b then b else a
  }

  function BumpSnapshot(sn: Snapshot, j: nat): Snapshot {
    if sn.Snapshot? then sn.(rewritten := Max(sn.rewritten, j + 1)) else sn
  }

  function BumpMark(m: Mark, j: nat): Mark {
    if m.NoMark? then m else m.(rewritten := Max(m.rewritten, j + 1))
  }

  function Do(crc: Checksum, s: Store, step: Step): Store
    requires s.segs != [] && Enabled(crc, s, step)
  {
    match step
    case Stage(h) => s.(op := Staged(h))
    case Commit => s.(blobs := s.blobs + {s.op.hash}, op := Committed(s.op.hash))
    case AppendUpload(p) => s.(segs := AppendTo(s.segs, p), op := Appended(AppendedMeta(crc, s, p)))
    case AppendThumbnail(id, paths) =>
      var p := s.index.primary[id].photo.(thumbnailPaths := paths);
      s.(segs := AppendTo(s.segs, p), op := Appended(AppendedMeta(crc, s, p)))
    case IndexPut => s.(index := Put(s.index, s.op.m), op := Idle)
    case AppendTombstone(id) =>
      var p := s.index.primary[id].photo.(tombstone := true);
      s.(segs := AppendTo(s.segs, p), op := Buried(id),
         sharedDelete := s.sharedDelete || !Unshared(s.index.primary, id))
    case IndexRemove =>
      s.(index := Remove(s.index, s.op.id), op := Unlinking(s.index.primary[s.op.id].photo.contentHash))
    case RemoveBlob => s.(blobs := s.blobs - {s.op.hash}, op := Idle)
    case GiveUp => s.(op := Idle)
    case Rotate => s.(segs := s.segs + [[]])
    case ReadName => s.(mark := Named(Active(s), 0))
    case ReadOffset => s.(mark := Placed(s.mark.segment, |Lines(crc, s.segs[Active(s)])|, s.mark.rewritten))
    case CopyIndex(records) => s.(mark := Copied(s.mark.segment, s.mark.offset, records, s.mark.rewritten))
    case SaveSnapshot =>
      s.(snapshot := Snapshot(s.mark.segment, s.mark.offset, s.mark.records, s.mark.rewritten), mark := NoMark)
    case LoseSnapshot => s.(snapshot := NoSnapshot)
    case BeginPass => s.(pass := Between(0, Active(s), {}))
    case ReadSegment =>
      var j := s.pass.next;
      s.(pass := Checking(j, s.pass.limit, Scan(crc, Name(j + 1), Lines(crc, s.segs[j]), 0), 0, [], s.pass.skipped))
    case CheckPhoto => s.(pass := CheckNext(s.pass, s.index.primary))
    case RenameSegment =>
      var j := s.pass.segment;
      s.(segs := s.segs[j := s.pass.kept], pass := Between(j + 1, s.pass.limit, s.pass.skipped),
         snapshot := BumpSnapshot(s.snapshot, j), mark := BumpMark(s.mark, j))
    case SkipSegment => s.(pass := Skip(s.pass))
    case EndPass => s.(pass := Resting)
    case Restart =>
      s.(index := LoadFrom(crc, s.segs, s.snapshot), op := Idle, mark := NoMark, pass := Resting)
  }

  /** The steps are taken one after the other, each when it is enabled. */
  ghost predicate IsRun(crc: Checksum, s: Store, steps: seq<Step>, s': Store)
    decreases |steps|
  {
    if steps == [] then s == s'
    else s.segs != [] && Enabled(crc, s, steps[0]) && IsRun(crc, Do(crc, s, steps[0]), steps[1..], s')
  }

  ghost predicate Reaches(crc: Checksum, s: Store, s': Store) {
    exists steps :: IsRun(crc, s, steps, s')
  }

  // ------------------------------------------------------- what a log says

  /** Where the last record for a photo is in the whole log. */
  datatype Home = Nowhere | At(segment: nat, photo: Photo)

  function HomeOf(segs: seq<seq<Photo>>, id: string): Home {
    if segs == [] then Nowhere
    else
      var n := |segs| - 1;
      match LastPhoto(segs[n], id)
      case Some(p) => At(n, p)
      case None => HomeOf(segs[..n], id)
  }

  /** An index map agrees with the log on a photo: its entry is the log's last record
      with the right segment; or it has none and that record is a tombstone; or the log
      knows nothing of the photo, and an entry, if any, is a tombstone. */
  ghost predicate Agrees(segs: seq<seq<Photo>>, primary: Primary, id: string) {
    match HomeOf(segs, id)
    case At(j, p) =>
      if id in primary then primary[id].photo == p && primary[id].segmentId == Name(j + 1) else p.tombstone
    case Nowhere => id in primary ==> primary[id].photo.tombstone
  }
}
