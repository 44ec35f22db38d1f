/** Upload, thumbnail update, delete, snapshot, compaction and start-up as the services
    run them on the shared disk, index and writer, each a run of the engine. */
module Services {
  import opened Basics
  import opened Models
  import opened Order
  import opened Names
  import opened LogFormat
  import opened LogReader
  import opened LogReplay
  import opened Index
  import opened Engine
  import opened LogQueries
  import opened EngineInvariant
  import opened EngineTheorems
  import opened Recovery
  import opened Deduplication
  import opened Operations
  import opened PartialPass
  import opened Storage
  import opened IndexStore
  import opened LogWriter
  import opened Compactor

  // ------------------------------------------------------------ specification

  const CHUNK_SIZE: nat := 1024 * 1024

  const JPEG_MAGIC: Bytes := [0xff as char, 0xd8 as char, 0xff as char]
  const PNG_MAGIC: Bytes := [0x89 as char, 'P', 'N', 'G', '\r', '\n', 0x1a as char, '\n']

  /** `_validate_magic_bytes` */
  predicate IsImage(data: Bytes) {
    JPEG_MAGIC <= data || PNG_MAGIC <= data
  }

  /** The two signatures, byte by byte: three bytes for JPEG, eight for PNG. */
  lemma MagicBytes(data: Bytes)
    ensures IsImage(data) <==>
            || (|data| >= 3 && data[0] as int == 0xff && data[1] as int == 0xd8 && data[2] as int == 0xff)
            || (|data| >= 8 && data[0] as int == 0x89 && data[1] as int == 0x50 && data[2] as int == 0x4e &&
                data[3] as int == 0x47 && data[4] as int == 0x0d && data[5] as int == 0x0a &&
                data[6] as int == 0x1a && data[7] as int == 0x0a)
  {
    if |data| >= 3 { assert data[..3] == [data[0], data[1], data[2]]; }
    if |data| >= 8 {
      assert data[..8] == [data[0], data[1], data[2], data[3], data[4], data[5], data[6], data[7]];
    }
  }

  /** The log directory and the segment counter after an append. */
  predicate LogAfterAppend(
      crc: Checksum, limit: nat, files: Directory, counter: nat, p: Photo, files': Directory, counter': nat)
    requires Name(counter) in files
  {
    var written := Extend(files, Name(counter), Line(crc, p));
    if |written[Name(counter)]| >= limit then
      counter' == counter + 1 && files' == Touch(written, Name(counter'))
    else
      counter' == counter && files' == written
  }

  /** The running server stands for a state of the engine at rest. */
  ghost predicate Represents(crc: Checksum, s: Store, disk: Disk, index: PhotoIndex, writer: Writer)
    reads disk, index, writer
  {
    && writer.crc == crc && writer.disk == disk && writer.Valid() && writer.isOpen
    && writer.segmentCounter == |s.segs|
    && OnDisk(crc, s, disk.logs, disk.snapshot)
    && disk.blobs.Keys == s.blobs
    && index.Content() == s.index
    && AtRest(crc, s)
  }

  /** No operation, snapshot or compaction is under way. */
  ghost predicate AtRest(crc: Checksum, s: Store) {
    Inv(crc, s) && s.op.Idle? && s.mark.NoMark? && s.pass.Resting?
  }

  // --------------------------------------------------------- appends and states

  lemma ReachesKeepsInv(crc: Checksum, s: Store, s': Store)
    requires Inv(crc, s) && Reaches(crc, s, s')
    ensures Inv(crc, s')
  {
    hide Inv, IsRun;
    var steps :| IsRun(crc, s, steps, s');
    RunKeepsInv(crc, s, steps, s');
  }

  /** Whether the append of `p` fills the active segment. */
  predicate Fills(crc: Checksum, limit: nat, s: Store, p: Photo)
    requires s.segs != []
  {
    EndSize(crc, AppendTo(s.segs, p)) >= limit
  }

  /** An append to the files is an append to the segments, with its rotation. */
  lemma AppendRefines(crc: Checksum, limit: nat, s: Store, files: Directory, p: Photo, files': Directory, counter': nat)
    requires s.segs != [] && |s.segs| < MAX_COUNTER && Holds(crc, files, s.segs)
    ensures Name(|s.segs|) in files && |files[Name(|s.segs|)]| == |Lines(crc, s.segs[Active(s)])|
    ensures LogAfterAppend(crc, limit, files, |s.segs|, p, files', counter') ==>
              var segs' := WithRotation(s.(segs := AppendTo(s.segs, p)), Fills(crc, limit, s, p)).segs;
              counter' == |segs'| && Holds(crc, files', segs')
  {
    hide Name, Lines, Line, Holds;
    AppendOfHolds(crc, limit, files, s.segs, p);
  }

  /** What `append` returned on the files is what the engine's append returns. */
  lemma AppendedMetaIs(crc: Checksum, s: Store, files: Directory, m: PhotoMeta)
    requires s.segs != [] && Name(|s.segs|) in files && files[Name(|s.segs|)] == Lines(crc, s.segs[Active(s)])
    requires m == Place(m.photo, Name(|s.segs|), |files[Name(|s.segs|)]|, |Line(crc, m.photo)|)
    ensures m == AppendedMeta(crc, s, m.photo)
  {
    hide Name, Lines, Line, Place;
  }

  /** A record just appended is the last for its photo in a replay of the files. */
  lemma AppendedIsLast(
      crc: Checksum, s: Store, s': Store, p: Photo, rotate: bool, files: Directory, file: SnapshotFile)
    requires s.segs != [] && OnDisk(crc, s', files, file)
    requires s'.segs == WithRotation(s.(segs := AppendTo(s.segs, p)), rotate).segs
    ensures Last(ReplayAll(crc, files), p.photoId) == Some(AppendedMeta(crc, s, p))
  {
    hide *;
    LogOnDisk(crc, s', files, file);
    OneMoreLocated(crc, s, p, rotate);
    LastOfOneMore(AllLocated(crc, s.segs, 0), AppendedMeta(crc, s, p), p.photoId);
    MetaOf(crc, s, p);
  }

  lemma OneMoreLocated(crc: Checksum, s: Store, p: Photo, rotate: bool)
    requires s.segs != []
    ensures AllLocated(crc, WithRotation(s.(segs := AppendTo(s.segs, p)), rotate).segs, 0) ==
            AllLocated(crc, s.segs, 0) + [AppendedMeta(crc, s, p)]
  {
    AllLocatedAfterAppend(crc, s.segs, p, 0);
    AllLocatedAfterRotate(crc, AppendTo(s.segs, p), 0);
    hide AllLocated, AppendTo, Lines, Line, Name;
  }

  lemma MetaOf(crc: Checksum, s: Store, p: Photo)
    requires s.segs != []
    ensures AppendedMeta(crc, s, p).photo == p
  {
    hide Lines, Line, Name;
  }

  // ------------------------------------------------------------------- upload

  datatype UploadResult =
    | UnsupportedType
    | Duplicate(existing: Option<PhotoMeta>)
    | Created(meta: PhotoMeta)
    | WriterClosed

  /** What the server learns about a new photo besides its content. */
  datatype Details = Details(
    photoId: string, takenAt: Option<Bytes>, camera: Option<Bytes>, gps: Option<(Json.NumToken, Json.NumToken)>,
    now: Bytes)

  function NewPhoto(d: Details, hash: string): Photo {
    Photo(d.photoId, hash, d.takenAt, d.camera, d.gps, [], false, d.now)
  }

  /** Streams the upload to a temporary file, chunk by chunk. */
  method StreamToTemp(disk: Disk, tmpId: string, data: Bytes) returns (received: Bytes)
    modifies disk`temps
    ensures received == data
    ensures disk.temps == old(disk.temps)[tmpId := data]
  {
    disk.temps := disk.temps[tmpId := []];
    received := [];
    var pos := 0;
    while pos < |data|
      invariant 0 <= pos <= |data| && received == data[..pos]
      invariant disk.temps == old(disk.temps)[tmpId := data[..pos]]
      decreases |data| - pos
    {
      var end := if pos + CHUNK_SIZE <= |data| then pos + CHUNK_SIZE else |data|;
      var chunk := data[pos..end];
      assert data[..end] == data[..pos] + chunk;
      disk.temps := disk.temps[tmpId := disk.temps[tmpId] + chunk];
      received := received + chunk;
      pos := end;
    }
    assert data[..pos] == data;
  }

  /** `process_upload`: blob first, then the log, then the index; the temporary file is
      gone in every case. */
  method ProcessUpload(
      disk: Disk, index: PhotoIndex, writer: Writer, sha256: Bytes -> string, data: Bytes, tmpId: string, d: Details)
    returns (r: UploadResult)
    requires writer.Valid() && writer.disk == disk
    modifies disk, index, writer
    ensures writer.Valid() && writer.isOpen == old(writer.isOpen)
    ensures disk.temps == old(disk.temps) - {tmpId} && disk.snapshot == old(disk.snapshot)
    ensures r.UnsupportedType? <==> !IsImage(data)
    ensures r.Duplicate? <==> IsImage(data) && ContainsHash(old(index.Content()), sha256(data))
    ensures r.Duplicate? ==> r.existing == GetByHash(old(index.Content()), sha256(data))
    ensures r.UnsupportedType? || r.Duplicate? ==> disk.blobs == old(disk.blobs)
    ensures r.Created? || r.WriterClosed? ==> disk.blobs == old(disk.blobs)[sha256(data) := data]
    ensures !r.Created? ==> disk.logs == old(disk.logs) && index.Content() == old(index.Content())
    ensures !r.Created? ==> writer.segmentCounter == old(writer.segmentCounter)
    ensures r.WriterClosed? ==> !old(writer.isOpen)
    ensures r.Created? ==>
              && old(writer.isOpen)
              && r.meta == Place(NewPhoto(d, sha256(data)), old(writer.segmentName),
                                 |old(disk.logs[writer.segmentName])|, |Line(writer.crc, NewPhoto(d, sha256(data)))|)
              && LogAfterAppend(writer.crc, writer.maxSegmentBytes, old(disk.logs), old(writer.segmentCounter),
                                r.meta.photo, disk.logs, writer.segmentCounter)
              && index.Content() == Put(old(index.Content()), r.meta)
    ensures r.Created? ==>
              && r.meta.photo.photoId == d.photoId && r.meta.photo.contentHash == sha256(data)
              && r.meta.photo.takenAt == d.takenAt && r.meta.photo.camera == d.camera && r.meta.photo.gps == d.gps
              && r.meta.photo.uploadedAt == d.now && r.meta.photo.thumbnailPaths == [] && !r.meta.photo.tombstone
    ensures r.Created? ==>
              && index.primary == old(index.primary)[d.photoId := r.meta]
              && index.hashes == old(index.hashes)[sha256(data) := d.photoId]
              && (d.photoId !in old(index.primary) ==> index.Content() == Apply(old(index.Content()), Upload(r.meta)))
  {
    hide Name, Line;
    var received := StreamToTemp(disk, tmpId, data);
    var hash := sha256(received);
    if !IsImage(disk.temps[tmpId]) {
      disk.temps := disk.temps - {tmpId};
      return UnsupportedType;
    }
    if ContainsHash(index.Content(), hash) {
      disk.temps := disk.temps - {tmpId};
      return Duplicate(GetByHash(index.Content(), hash));
    }
    disk.blobs := disk.blobs[hash := disk.temps[tmpId]];
    disk.temps := disk.temps - {tmpId};
    var photo := NewPhoto(d, hash);
    var appended := writer.Append(PhotoMeta(photo, "", 0, 0));
    match appended
    case None => r := WriterClosed;
    case Some(meta) =>
      index.Put(meta);
      r := Created(meta);
  }

  /** Appending `p` on the disk of a state at rest leads to the disk of any state that
      differs from it by that append, its rotation, and memory and blobs. */
  lemma DiskAfterAppend(crc: Checksum, limit: nat, s: Store, s': Store, files: Directory, file: SnapshotFile,
                        p: Photo, files': Directory, counter': nat)
    requires s.segs != [] && |s.segs| < MAX_COUNTER && OnDisk(crc, s, files, file)
    requires Name(|s.segs|) in files && LogAfterAppend(crc, limit, files, |s.segs|, p, files', counter')
    requires s'.segs == WithRotation(s.(segs := AppendTo(s.segs, p)), Fills(crc, limit, s, p)).segs
    requires s'.snapshot == s.snapshot
    ensures OnDisk(crc, s', files', file) && counter' == |s'.segs|
  {
    hide Name, Lines, Line, Holds, LogAfterAppend;
    AppendRefines(crc, limit, s, files, p, files', counter');
  }

  lemma UploadRefines(crc: Checksum, limit: nat, s: Store, files: Directory, file: SnapshotFile,
                      p: Photo, files': Directory, counter': nat)
    requires AtRest(crc, s) && s.segs != [] && |s.segs| < MAX_COUNTER && OnDisk(crc, s, files, file)
    requires !ContainsHash(s.index, p.contentHash) && !p.tombstone && Fresh(s, p.photoId)
    requires Name(|s.segs|) in files && LogAfterAppend(crc, limit, files, |s.segs|, p, files', counter')
    ensures var s' := Uploaded(crc, s, p, Fills(crc, limit, s, p));
            && Reaches(crc, s, s') && AtRest(crc, s') && OnDisk(crc, s', files', file) && counter' == |s'.segs|
            && s'.index == Put(s.index, AppendedMeta(crc, s, p)) && s'.blobs == s.blobs + {p.contentHash}
            && s'.segs == WithRotation(s.(segs := AppendTo(s.segs, p)), Fills(crc, limit, s, p)).segs
  {
    hide Name, Lines, Line, LogAfterAppend, OnDisk, Inv, Reaches, Fresh;
    var s' := Uploaded(crc, s, p, Fills(crc, limit, s, p));
    UploadReaches(crc, s, p, Fills(crc, limit, s, p));
    ReachesKeepsInv(crc, s, s');
    DiskAfterAppend(crc, limit, s, s', files, file, p, files', counter');
  }

  /** The active file of a server at rest. */
  lemma ActiveFile(crc: Checksum, s: Store, files: Directory, file: SnapshotFile)
    requires AtRest(crc, s) && OnDisk(crc, s, files, file)
    ensures s.segs != [] && Name(|s.segs|) in files && files[Name(|s.segs|)] == Lines(crc, s.segs[Active(s)])
    ensures Keyed(s.index.primary)
  {
    hide Name, Lines, SnapshotInv, MarkInv, PassInv, BlobInv;
    var n := |s.segs|;
    assert Name(n) in files && files[Name(n)] == Lines(crc, s.segs[n - 1]);
  }

  /** A new photo on a running server is a run of the engine. */
  method ServeUpload(
      disk: Disk, index: PhotoIndex, writer: Writer, sha256: Bytes -> string, data: Bytes, tmpId: string, d: Details,
      ghost s: Store)
    returns (r: UploadResult, ghost s': Store)
    requires Represents(writer.crc, s, disk, index, writer) && Fresh(s, d.photoId) && |s.segs| < MAX_COUNTER
    modifies disk, index, writer
    ensures Represents(writer.crc, s', disk, index, writer) && Reaches(writer.crc, s, s')
    ensures r.Created? ==>
      s' == Uploaded(writer.crc, s, r.meta.photo, Fills(writer.crc, writer.maxSegmentBytes, s, r.meta.photo))
    ensures r.Created? ==>
              && r.meta.photo.photoId == d.photoId && r.meta.photo.contentHash == sha256(data)
              && r.meta.photo.takenAt == d.takenAt && r.meta.photo.camera == d.camera && r.meta.photo.gps == d.gps
              && r.meta.photo.uploadedAt == d.now && r.meta.photo.thumbnailPaths == [] && !r.meta.photo.tombstone
    ensures r.Created? ==> Last(ReplayAll(writer.crc, disk.logs), d.photoId) == Some(r.meta)
    ensures !r.Created? ==> s' == s && (r.UnsupportedType? || r.Duplicate?)
    ensures r.Duplicate? && Reachable(writer.crc, s) ==>
              r.existing.Some? && r.existing.value.photo.contentHash == sha256(data)
  {
    hide Name, Lines, Line, OnDisk, Reaches, Fresh, LogAfterAppend, Fills, IsImage, Put, GetByHash, Place, ReplayAll;
    hide Uploaded, AppendedMeta, Last, WithRotation, AppendTo, AtRest;
    ghost var files, file := disk.logs, disk.snapshot;
    ActiveFile(writer.crc, s, files, file);
    if Reachable(writer.crc, s) { DuplicateIsFound(writer.crc, s, sha256(data)); }
    r := ProcessUpload(disk, index, writer, sha256, data, tmpId, d);
    s' := s;
    if r.Created? {
      AppendedMetaIs(writer.crc, s, files, r.meta);
      UploadRefines(writer.crc, writer.maxSegmentBytes, s, files, file, r.meta.photo, disk.logs, writer.segmentCounter);
      ghost var full := Fills(writer.crc, writer.maxSegmentBytes, s, r.meta.photo);
      s' := Uploaded(writer.crc, s, r.meta.photo, full);
      AppendedIsLast(writer.crc, s, s', r.meta.photo, full, disk.logs, file);
    } else {
      ReachesItself(writer.crc, s);
    }
  }

  // ---------------------------------------------------------------- thumbnail

  /** Steps 2 to 5 of `process_thumbnail_task`: read the current entry again, append a
      record that supersedes it, put it.  A photo that has disappeared is left alone. */
  method UpdateThumbnail(
      index: PhotoIndex, writer: Writer, id: string, thumbnail: Bytes) returns (updated: Option<PhotoMeta>)
    requires writer.Valid()
    modifies index, writer, writer.disk`logs
    ensures writer.Valid() && writer.isOpen == old(writer.isOpen)
    ensures updated.Some? <==> id in old(index.primary) && old(writer.isOpen)
    ensures updated.None? ==>
              && writer.disk.logs == old(writer.disk.logs) && index.Content() == old(index.Content())
              && writer.segmentCounter == old(writer.segmentCounter)
    ensures updated.Some? ==>
              var p := old(index.primary[id]).photo.(thumbnailPaths := [thumbnail]);
              && updated.value.photo == p
              && updated.value ==
                 Place(p, old(writer.segmentName), |old(writer.disk.logs[writer.segmentName])|, |Line(writer.crc, p)|)
    ensures updated.Some? ==>
              && LogAfterAppend(writer.crc, writer.maxSegmentBytes, old(writer.disk.logs), old(writer.segmentCounter),
                                updated.value.photo, writer.disk.logs, writer.segmentCounter)
              && index.Content() == Put(old(index.Content()), updated.value)
              && index.primary == old(index.primary)[updated.value.photo.photoId := updated.value]
              && index.hashes == old(index.hashes)[updated.value.photo.contentHash := updated.value.photo.photoId]
              && (old(Keyed(index.primary)) ==>
                    var m := updated.value;
                    index.Content() ==
                    Apply(old(index.Content()), Thumbnail(id, [thumbnail], m.segmentId, m.offset, m.length)))
  {
    hide Name, Line;
    var current := index.Get(id);
    if current.None? { return None; }
    var meta := PhotoMeta(current.value.photo.(thumbnailPaths := [thumbnail]), "", 0, 0);
    updated := writer.Append(meta);
    if updated.Some? { index.Put(updated.value); }
  }

  lemma ThumbnailRefines(crc: Checksum, limit: nat, s: Store, files: Directory, file: SnapshotFile,
                         id: string, paths: seq<Bytes>, files': Directory, counter': nat)
    requires AtRest(crc, s) && s.segs != [] && |s.segs| < MAX_COUNTER && OnDisk(crc, s, files, file)
    requires id in s.index.primary && Name(|s.segs|) in files
    requires var p := s.index.primary[id].photo.(thumbnailPaths := paths);
             LogAfterAppend(crc, limit, files, |s.segs|, p, files', counter')
    ensures var p := s.index.primary[id].photo.(thumbnailPaths := paths);
            var s' := Thumbnailed(crc, s, id, paths, Fills(crc, limit, s, p));
            && Reaches(crc, s, s') && AtRest(crc, s') && OnDisk(crc, s', files', file) && counter' == |s'.segs|
            && s'.index == Put(s.index, AppendedMeta(crc, s, p)) && s'.blobs == s.blobs
            && s'.segs == WithRotation(s.(segs := AppendTo(s.segs, p)), Fills(crc, limit, s, p)).segs
  {
    hide Name, Lines, Line, LogAfterAppend, OnDisk, Inv, Reaches;
    var p := s.index.primary[id].photo.(thumbnailPaths := paths);
    var s' := Thumbnailed(crc, s, id, paths, Fills(crc, limit, s, p));
    ThumbnailReaches(crc, s, id, paths, Fills(crc, limit, s, p));
    ReachesKeepsInv(crc, s, s');
    DiskAfterAppend(crc, limit, s, s', files, file, p, files', counter');
  }

  /** A thumbnail update on a running server is a run of the engine. */
  method ServeThumbnail(disk: Disk, index: PhotoIndex, writer: Writer, id: string, thumbnail: Bytes, ghost s: Store)
    returns (updated: Option<PhotoMeta>, ghost s': Store)
    requires Represents(writer.crc, s, disk, index, writer) && |s.segs| < MAX_COUNTER
    modifies disk, index, writer
    ensures Represents(writer.crc, s', disk, index, writer) && Reaches(writer.crc, s, s')
    ensures updated.Some? <==> id in s.index.primary
    ensures updated.Some? ==>
              s' == Thumbnailed(writer.crc, s, id, [thumbnail],
                                Fills(writer.crc, writer.maxSegmentBytes, s, updated.value.photo))
    ensures updated.None? ==> s' == s
    ensures updated.Some? ==>
              && updated.value.photo == s.index.primary[id].photo.(thumbnailPaths := [thumbnail])
              && Last(ReplayAll(writer.crc, disk.logs), id) == Some(updated.value)
              && index.primary == s.index.primary[id := updated.value]
  {
    hide Name, Lines, Line, OnDisk, Reaches, LogAfterAppend, Fills, Put, Place, ReplayAll, Thumbnailed, AppendedMeta;
    hide Last, WithRotation, AppendTo, AtRest;
    ghost var files, file := disk.logs, disk.snapshot;
    ActiveFile(writer.crc, s, files, file);
    updated := UpdateThumbnail(index, writer, id, thumbnail);
    s' := s;
    if updated.Some? {
      AppendedMetaIs(writer.crc, s, files, updated.value);
      ThumbnailRefines(writer.crc, writer.maxSegmentBytes, s, files, file, id, [thumbnail], disk.logs,
        writer.segmentCounter);
      ghost var full := Fills(writer.crc, writer.maxSegmentBytes, s, updated.value.photo);
      s' := Thumbnailed(writer.crc, s, id, [thumbnail], full);
      AppendedIsLast(writer.crc, s, s', updated.value.photo, full, disk.logs, file);
    } else {
      ReachesItself(writer.crc, s);
    }
  }

  // ------------------------------------------------------------------- delete

  datatype DeleteResult = UnknownPhoto | Gone(meta: PhotoMeta) | CannotLog

  /** `delete_photo`: tombstone to the log, entry out of the index, blob off the disk. */
  method DeletePhoto(disk: Disk, index: PhotoIndex, writer: Writer, id: string) returns (r: DeleteResult)
    requires writer.Valid() && writer.disk == disk
    modifies disk, index, writer
    ensures writer.Valid() && writer.isOpen == old(writer.isOpen)
    ensures disk.temps == old(disk.temps) && disk.snapshot == old(disk.snapshot)
    ensures r.UnknownPhoto? <==> id !in old(index.primary)
    ensures r.CannotLog? ==> !old(writer.isOpen)
    ensures !r.Gone? ==>
              && disk.logs == old(disk.logs) && disk.blobs == old(disk.blobs) && index.Content() == old(index.Content())
              && writer.segmentCounter == old(writer.segmentCounter)
    ensures r.Gone? ==>
              && old(writer.isOpen)
              && r.meta == old(index.primary[id])
              && LogAfterAppend(writer.crc, writer.maxSegmentBytes, old(disk.logs), old(writer.segmentCounter),
                                r.meta.photo.(tombstone := true), disk.logs, writer.segmentCounter)
              && index.Content() == Remove(old(index.Content()), id)
              && index.primary == old(index.primary) - {id}
              && index.Content() == Apply(old(index.Content()), Index.Delete(id))
              && disk.blobs == old(disk.blobs) - {r.meta.photo.contentHash}
  {
    hide Name, Line;
    var entry := index.Get(id);
    if entry.None? { return UnknownPhoto; }
    var meta := entry.value;
    var tombstone := meta.(photo := meta.photo.(tombstone := true));
    var appended := writer.Append(tombstone);
    if appended.None? { return CannotLog; }
    var _ := index.Delete(id);
    if meta.photo.contentHash in disk.blobs {
      disk.blobs := disk.blobs - {meta.photo.contentHash};
    }
    r := Gone(meta);
  }

  lemma DeleteRefines(crc: Checksum, limit: nat, s: Store, files: Directory, file: SnapshotFile,
                      id: string, files': Directory, counter': nat)
    requires AtRest(crc, s) && s.segs != [] && |s.segs| < MAX_COUNTER && OnDisk(crc, s, files, file)
    requires id in s.index.primary && Name(|s.segs|) in files
    requires LogAfterAppend(crc, limit, files, |s.segs|, s.index.primary[id].photo.(tombstone := true), files',
      counter')
    ensures var s' := Deleted(s, id, Fills(crc, limit, s, s.index.primary[id].photo.(tombstone := true)));
            Reaches(crc, s, s') && AtRest(crc, s') && OnDisk(crc, s', files', file) && counter' == |s'.segs|
  {
    hide Name, Lines, Line, LogAfterAppend, OnDisk, Inv, Reaches, Unshared;
    var p := s.index.primary[id].photo.(tombstone := true);
    var s' := Deleted(s, id, Fills(crc, limit, s, p));
    DeleteReaches(crc, s, id, Fills(crc, limit, s, p));
    ReachesKeepsInv(crc, s, s');
    DiskAfterAppend(crc, limit, s, s', files, file, p, files', counter');
  }

  /** A delete on a running server is a run of the engine. */
  method ServeDelete(disk: Disk, index: PhotoIndex, writer: Writer, id: string, ghost s: Store)
    returns (r: DeleteResult, ghost s': Store)
    requires Represents(writer.crc, s, disk, index, writer) && |s.segs| < MAX_COUNTER
    modifies disk, index, writer
    ensures Represents(writer.crc, s', disk, index, writer) && Reaches(writer.crc, s, s')
    ensures r.Gone? <==> id in s.index.primary
    ensures r.Gone? ==>
              s' == Deleted(s, id,
                            Fills(writer.crc, writer.maxSegmentBytes, s, s.index.primary[id].photo.(tombstone := true)))
    ensures r.Gone? ==>
              && r.meta == s.index.primary[id]
              && index.primary == s.index.primary - {id} && disk.blobs.Keys == s.blobs - {r.meta.photo.contentHash}
              && var last := Last(ReplayAll(writer.crc, disk.logs), id);
                 last.Some? && last.value.photo == r.meta.photo.(tombstone := true)
    ensures !r.Gone? ==> s' == s
  {
    hide Name, Lines, Line, OnDisk, Inv, Reaches, LogAfterAppend, Fills, Unshared;
    ghost var files, file := disk.logs, disk.snapshot;
    ActiveFile(writer.crc, s, files, file);
    r := DeletePhoto(disk, index, writer, id);
    s' := s;
    if r.Gone? {
      DeleteRefines(writer.crc, writer.maxSegmentBytes, s, files, file, id, disk.logs, writer.segmentCounter);
      ghost var p := s.index.primary[id].photo.(tombstone := true);
      ghost var full := Fills(writer.crc, writer.maxSegmentBytes, s, p);
      s' := Deleted(s, id, full);
      AppendedIsLast(writer.crc, s, s', p, full, disk.logs, file);
    } else {
      ReachesItself(writer.crc, s);
    }
  }

  // ------------------------------------------------------------------- lookup

  /** What a lookup in memory returns is what the log on disk says last: a live photo is
      returned exactly when its last record in a replay of all files is live, and then
      with that record and the segment it is in. */
  lemma GetIsLastRecord(crc: Checksum, s: Store, disk: Disk, index: PhotoIndex, writer: Writer, id: string)
    requires Represents(crc, s, disk, index, writer)
    ensures var last, got := Last(ReplayAll(crc, disk.logs), id), index.Get(id);
            && (last.Some? && !last.value.photo.tombstone ==>
                  got.Some? && got.value.photo == last.value.photo && got.value.segmentId == last.value.segmentId)
            && (got.Some? && !got.value.photo.tombstone ==> last.Some? && !last.value.photo.tombstone)
  {
    RestAgrees(crc, s, disk.logs, disk.snapshot, id);
    hide Inv, OnDisk, Holds, ReplayAll, Last, AtRest, Agrees;
    LastOnDisk(crc, disk.logs, s.segs, s.index.primary, id);
    assert index.Content().primary == index.primary;
  }

  lemma RestAgrees(crc: Checksum, s: Store, files: Directory, file: SnapshotFile, id: string)
    requires AtRest(crc, s) && OnDisk(crc, s, files, file)
    ensures Holds(crc, files, s.segs) && Agrees(s.segs, s.index.primary, id)
  {
    hide Holds, Agrees, SnapshotInv, MarkInv, PassInv, BlobInv, PendingInv, Name;
    assert After(s) == s.index;
  }

  lemma LastOnDisk(crc: Checksum, files: Directory, segs: seq<seq<Photo>>, primary: Primary, id: string)
    requires Holds(crc, files, segs) && Agrees(segs, primary, id)
    ensures var last := Last(ReplayAll(crc, files), id);
            && (last.Some? && !last.value.photo.tombstone ==>
                  id in primary && primary[id].photo == last.value.photo &&
                    primary[id].segmentId == last.value.segmentId)
            && (IsLive(primary, id) ==> last.Some? && !last.value.photo.tombstone)
  {
    hide Holds, ReplayAll, AllLocated, HomeOf, Name, Last;
    ReplayAllOfHolds(crc, files, segs);
    LastOfFullReplay(crc, segs, id);
  }

  /** On a running server that has not deleted the content of another live photo, the blob
      of every live entry is on disk. */
  lemma ServedHaveBlobs(crc: Checksum, s: Store, disk: Disk, index: PhotoIndex, writer: Writer, id: string)
    requires Represents(crc, s, disk, index, writer) && !s.sharedDelete
    requires id in index.primary && !index.primary[id].photo.tombstone
    ensures index.primary[id].photo.contentHash in disk.blobs
  {
    assert BlobInv(s) && index.Content().primary == index.primary;
    hide OnDisk, LogInv, SnapshotInv, MarkInv, PassInv, PendingInv, PlacedInv, ShareNothing, HaveHashes;
    assert IsLive(s.index.primary, id);
  }

  // ---------------------------------------------------- snapshot and compaction

  /** The snapshot route: save the index with the writer's position. */
  method TakeSnapshot(disk: Disk, index: PhotoIndex, writer: Writer)
    requires writer.Valid() && writer.disk == disk && Keyed(index.primary)
    modifies disk`snapshot, writer`appendCount
    ensures writer.Valid() && writer.appendCount == 0
    ensures disk.snapshot.Stored? && Lists(disk.snapshot.records, index.primary)
    ensures disk.snapshot ==
            Stored(SNAPSHOT_VERSION, writer.segmentName, writer.ActiveSegmentOffset(), disk.snapshot.records)
  {
    index.SaveSnapshot(disk, writer.segmentName, writer.ActiveSegmentOffset());
    writer.appendCount := 0;
  }

  lemma SnapshotRefines(crc: Checksum, s: Store, files: Directory, file: SnapshotFile, records: seq<PhotoMeta>)
    requires AtRest(crc, s) && s.segs != [] && OnDisk(crc, s, files, file) && Lists(records, s.index.primary)
    ensures var s' := Snapshotted(crc, s, records);
            && Reaches(crc, s, s') && AtRest(crc, s')
            && OnDisk(crc, s', files, Stored(SNAPSHOT_VERSION, Name(|s.segs|), |Lines(crc, s.segs[Active(s)])|,
              records))
  {
    hide Name, Lines, Inv, Reaches, Lists, Holds;
    SnapshotReaches(crc, s, records);
    ReachesKeepsInv(crc, s, Snapshotted(crc, s, records));
  }

  method ServeSnapshot(disk: Disk, index: PhotoIndex, writer: Writer, ghost s: Store) returns (ghost s': Store)
    requires Represents(writer.crc, s, disk, index, writer)
    modifies disk, writer
    ensures Represents(writer.crc, s', disk, index, writer) && Reaches(writer.crc, s, s')
    ensures s.segs != [] && disk.snapshot.Stored? && s' == Snapshotted(writer.crc, s, disk.snapshot.records)
  {
    hide Name, Lines, OnDisk, Inv, Reaches, Lists;
    ghost var files, file := disk.logs, disk.snapshot;
    ActiveFile(writer.crc, s, files, file);
    TakeSnapshot(disk, index, writer);
    SnapshotRefines(writer.crc, s, files, file, disk.snapshot.records);
    s' := Snapshotted(writer.crc, s, disk.snapshot.records);
  }

  /** The end of `lifespan`: a last snapshot, then the writer is closed. */
  method ShutDown(disk: Disk, index: PhotoIndex, writer: Writer)
    requires writer.Valid() && writer.disk == disk && Keyed(index.primary)
    modifies disk`snapshot, writer
    ensures writer.Valid() && !writer.isOpen
    ensures disk.snapshot.Stored? && Lists(disk.snapshot.records, index.primary)
    ensures disk.snapshot ==
            Stored(SNAPSHOT_VERSION, old(writer.segmentName), old(writer.ActiveSegmentOffset()), disk.snapshot.records)
  {
    TakeSnapshot(disk, index, writer);
    writer.Close();
  }

  /** Shutting a running server down is a run of the engine that leaves a snapshot fit for
      the next start. */
  method ServeShutDown(disk: Disk, index: PhotoIndex, writer: Writer, ghost s: Store) returns (ghost s': Store)
    requires Represents(writer.crc, s, disk, index, writer)
    modifies disk, writer
    ensures !writer.isOpen && disk.blobs.Keys == s'.blobs && OnDisk(writer.crc, s', disk.logs, disk.snapshot)
    ensures Reaches(writer.crc, s, s') && RestartSafe(s') && s'.index == s.index
  {
    hide Name, Lines, OnDisk, Inv, Reaches, Lists;
    ghost var files, file := disk.logs, disk.snapshot;
    ActiveFile(writer.crc, s, files, file);
    ShutDown(disk, index, writer);
    SnapshotRefines(writer.crc, s, files, file, disk.snapshot.records);
    s' := Snapshotted(writer.crc, s, disk.snapshot.records);
  }

  lemma CompactionRefines(
      crc: Checksum, s: Store, failures: Failures, files: Directory, file: SnapshotFile, records: seq<PhotoMeta>)
    requires AtRest(crc, s) && s.segs != [] && OnDisk(crc, s, files, file) && Lists(records, s.index.primary)
    requires SkipSound(s.segs, Active(s), SkippedSegments(failures, Active(s)))
    ensures var s' := FullyCompacted(crc, s, SkippedSegments(failures, Active(s)), records);
            && Reaches(crc, s, s') && AtRest(crc, s')
            && OnDisk(crc, s', RewriteEach(crc, s.index.primary, failures, Name(|s.segs|), files, Listing(files.Keys)),
                      Stored(SNAPSHOT_VERSION, Name(|s.segs|), |Lines(crc, s.segs[Active(s)])|, records))
            && |s'.segs| == |s.segs| && s'.segs[Active(s)] == s.segs[Active(s)]
            && s'.index == s.index && s'.blobs == s.blobs
  {
    hide Name, Lines, Inv, Reaches, Lists, Holds, RewriteEach, CompactedUpTo, Listing, SkippedSegments;
    var skipped := SkippedSegments(failures, Active(s));
    CompactionReaches(crc, s, skipped, records);
    ReachesKeepsInv(crc, s, FullyCompacted(crc, s, skipped, records));
    HoldsAfterPass(crc, s.index.primary, failures, files, s.segs);
  }

  /** The log a pass leaves, whatever segments it skips, and what the two start-up paths
      make of it. */
  ghost predicate PassOutcome(crc: Checksum, s: Store, failures: Failures, files: Directory, file: SnapshotFile)
    requires s.segs != []
  {
    var skipped := SkippedSegments(failures, Active(s));
    && Holds(crc, files, CompactedUpTo(crc, s.index.primary, s.segs, Active(s), skipped))
    && Live(Load(crc, EMPTY, files, file).primary) == Live(s.index.primary)
    && (Live(PutAll(EMPTY, ReplayAll(crc, files)).primary) == Live(s.index.primary) <==>
        forall id :: StaysDeleted(s.segs, Active(s), skipped, id))
  }

  /** A pass leaves the active file alone. */
  lemma PassKeepsActive(crc: Checksum, s: Store, failures: Failures, files: Directory, file: SnapshotFile)
    requires AtRest(crc, s) && s.segs != [] && OnDisk(crc, s, files, file)
    ensures var n := |s.segs|;
            var files' := RewriteEach(crc, s.index.primary, failures, Name(n), files, Listing(files.Keys));
            Name(n) in files' && files'[Name(n)] == Lines(crc, s.segs[n - 1])
  {
    hide Name, Lines, Inv, RewriteEach, Listing, SkippedSegments, CompactedUpTo;
    var n := |s.segs|;
    HoldsAfterPass(crc, s.index.primary, failures, files, s.segs);
    var files' := RewriteEach(crc, s.index.primary, failures, Name(n), files, Listing(files.Keys));
    assert Name(n) in files';
  }

  lemma PassEnds(
      crc: Checksum, s: Store, failures: Failures, files: Directory, file: SnapshotFile, records: seq<PhotoMeta>)
    requires AtRest(crc, s) && s.segs != [] && OnDisk(crc, s, files, file) && Lists(records, s.index.primary)
    ensures PassOutcome(crc, s, failures,
                        RewriteEach(crc, s.index.primary, failures, Name(|s.segs|), files, Listing(files.Keys)),
                        Stored(SNAPSHOT_VERSION, Name(|s.segs|), |Lines(crc, s.segs[Active(s)])|, records))
  {
    hide *;
    var n, skipped := |s.segs|, SkippedSegments(failures, Active(s));
    ActiveIs(s);
    RestParts(crc, s, files, file);
    var segs' := CompactedUpTo(crc, s.index.primary, s.segs, Active(s), skipped);
    var files' := RewriteEach(crc, s.index.primary, failures, Name(n), files, Listing(files.Keys));
    HoldsAfterPass(crc, s.index.primary, failures, files, s.segs);
    ReplayAllOfHolds(crc, files', segs');
    PassSafeIff(crc, s, Active(s), skipped);
    SnapshotAtEndLoads(crc, files', segs', records, s.index.primary);
    PassOutcomeIs(crc, s, failures, files', Stored(SNAPSHOT_VERSION, Name(n), |Lines(crc, s.segs[n - 1])|, records));
  }

  lemma PassOutcomeIs(crc: Checksum, s: Store, failures: Failures, files: Directory, file: SnapshotFile)
    requires s.segs != []
    requires var skipped := SkippedSegments(failures, Active(s));
             var segs' := CompactedUpTo(crc, s.index.primary, s.segs, Active(s), skipped);
             && Holds(crc, files, segs') && Load(crc, EMPTY, files, file).primary == s.index.primary
             && ReplayAll(crc, files) == AllLocated(crc, segs', 0)
             && (Live(PutAll(EMPTY, AllLocated(crc, segs', 0)).primary) == Live(s.index.primary) <==>
                 forall id :: StaysDeleted(s.segs, Active(s), skipped, id))
    ensures PassOutcome(crc, s, failures, files, file)
  {
    hide Holds, Load, Live, PutAll, AllLocated, ReplayAll, StaysDeleted, CompactedUpTo, SkippedSegments;
  }

  lemma RestParts(crc: Checksum, s: Store, files: Directory, file: SnapshotFile)
    requires AtRest(crc, s) && OnDisk(crc, s, files, file)
    ensures Holds(crc, files, s.segs) && LogInv(s) && Keyed(s.index.primary) && !Pending(s)
  {
    hide Holds, SnapshotInv, MarkInv, PassInv, PendingInv, PlacedInv, BlobInv, Agrees;
  }

  /** A snapshot at the end of the log gives back the index it lists. */
  lemma SnapshotAtEndLoads(
      crc: Checksum, files: Directory, segs: seq<seq<Photo>>, records: seq<PhotoMeta>, primary: Primary)
    requires Holds(crc, files, segs) && segs != [] && Lists(records, primary) && Keyed(primary)
    ensures var n := |segs|;
            Load(crc, EMPTY, files, Stored(SNAPSHOT_VERSION, Name(n), |Lines(crc, segs[n - 1])|,
              records)).primary == primary
  {
    var n := |segs|;
    hide Name, Lines, Holds, Lists, ReplayAfter;
    ReplayAfterOfHolds(crc, files, segs, n - 1, |Lines(crc, segs[n - 1])|);
    assert TailFrom(crc, segs, n - 1, |Lines(crc, segs[n - 1])|) == [];
    PutNothing(PutAll(EMPTY, records));
    SnapshotRestoresPrimary(records, primary);
  }

  lemma OnlyActiveIsOne(crc: Checksum, s: Store, files: Directory, file: SnapshotFile)
    requires AtRest(crc, s) && OnDisk(crc, s, files, file)
    ensures OnlyActive(files, Name(|s.segs|)) <==> |s.segs| == 1
  {
    hide *;
    RestBounds(crc, s, files, file);
    ListingOfHolds(crc, files, s.segs);
    OnlyActiveOfRange(files, |s.segs|);
  }

  lemma RestBounds(crc: Checksum, s: Store, files: Directory, file: SnapshotFile)
    requires AtRest(crc, s) && OnDisk(crc, s, files, file)
    ensures Holds(crc, files, s.segs) && 1 <= |s.segs| <= MAX_COUNTER
  {
    hide Holds, SnapshotInv, MarkInv, PassInv, PendingInv, BlobInv, Agrees;
  }

  lemma OnlyActiveOfRange(files: Directory, n: nat)
    requires Listing(files.Keys) == NameRange(1, n + 1) && 1 <= n <= MAX_COUNTER
    ensures OnlyActive(files, Name(n)) <==> n == 1
  {
    hide Name, Listing;
    var names := Listing(files.Keys);
    assert names[0] == Name(1) && |names| == n;
    if n > 1 && Name(1) == Name(n) { NameInjective(1, n); }
  }

  /** The result for one segment: its name, its records and bytes before and after. */
  ghost predicate Reported(crc: Checksum, s: Store, outcomes: seq<Outcome>, j: nat)
    requires j < |s.segs|
  {
    var kept := CompactedSegment(crc, s.index.primary, s.segs, j);
    Done(Name(j + 1), |s.segs[j]|, |kept|, |Lines(crc, s.segs[j])|, |Lines(crc, kept)|) in outcomes
  }

  /** The results of a pass: one for each closed segment that did not fail, in ascending
      order. */
  ghost predicate PassReported(crc: Checksum, s: Store, failures: Failures, outcomes: seq<Outcome>)
    requires s.segs != []
  {
    && |outcomes| == Active(s) - |SkippedSegments(failures, Active(s))|
    && (forall j: nat | j < Active(s) && Name(j + 1) !in failures :: Reported(crc, s, outcomes, j))
    && InOrder(outcomes)
  }

  lemma SkippedBelowAll(failures: Failures, n: nat)
    ensures SkippedBelow(SkippedSegments(failures, n), n) == SkippedSegments(failures, n)
  {
  }

  lemma ReportedOne(crc: Checksum, s: Store, failures: Failures, outcomes: seq<Outcome>, j: nat)
    requires s.segs != [] && j < Active(s) && Name(j + 1) !in failures
    requires outcomes == PassReports(crc, s.index.primary, s.segs, Active(s), SkippedSegments(failures, Active(s)))
    ensures Reported(crc, s, outcomes, j)
  {
    SkipsAt(failures, Active(s), j);
    PassReportHas(crc, s.index.primary, s.segs, Active(s), SkippedSegments(failures, Active(s)), j);
    ReportOf(crc, s.index.primary, s.segs, j);
    hide Name, Lines, CompactedSegment, PassReports, ReportAt, SkippedSegments;
  }

  predicate InOrder(outcomes: seq<Outcome>) {
    forall a, b | 0 <= a < b < |outcomes| :: Earlier(outcomes[a], outcomes[b])
  }

  lemma ReportedInOrder(crc: Checksum, s: Store, skipped: set<nat>)
    requires s.segs != [] && |s.segs| <= MAX_COUNTER
    ensures InOrder(PassReports(crc, s.index.primary, s.segs, Active(s), skipped))
  {
    var outcomes := PassReports(crc, s.index.primary, s.segs, Active(s), skipped);
    hide PassReports, Earlier, Name;
    forall a, b | 0 <= a < b < |outcomes| ensures Earlier(outcomes[a], outcomes[b]) {
      PassReportsAscend(crc, s.index.primary, s.segs, Active(s), skipped, a, b);
    }
  }

  lemma ReportedEach(crc: Checksum, s: Store, failures: Failures, outcomes: seq<Outcome>)
    requires s.segs != []
    requires outcomes == PassReports(crc, s.index.primary, s.segs, Active(s), SkippedSegments(failures, Active(s)))
    requires |outcomes| == Active(s) - |SkippedSegments(failures, Active(s))| && InOrder(outcomes)
    ensures PassReported(crc, s, failures, outcomes)
  {
    hide Name, PassReports, SkippedSegments, Reported, InOrder;
    forall j: nat | j < Active(s) && Name(j + 1) !in failures ensures Reported(crc, s, outcomes, j) {
      ReportedOne(crc, s, failures, outcomes, j);
    }
  }

  lemma ReportsOfPass(
      crc: Checksum, s: Store, failures: Failures, files: Directory, file: SnapshotFile, outcomes: seq<Outcome>)
    requires AtRest(crc, s) && s.segs != [] && OnDisk(crc, s, files, file)
    requires outcomes == Reports(crc, s.index.primary, failures, Name(|s.segs|), files, Listing(files.Keys))
    ensures PassReported(crc, s, failures, outcomes)
  {
    hide *;
    RestBounds(crc, s, files, file);
    ReportsAfterPass(crc, s.index.primary, failures, files, s.segs);
    ActiveIs(s);
    PassReportsCount(crc, s.index.primary, s.segs, Active(s), SkippedSegments(failures, Active(s)));
    SkippedBelowAll(failures, Active(s));
    ReportedInOrder(crc, s, SkippedSegments(failures, Active(s)));
    ReportedEach(crc, s, failures, outcomes);
  }

  lemma ActiveIs(s: Store)
    requires s.segs != []
    ensures Active(s) == |s.segs| - 1
  {
  }

  /** A compaction pass on a running server, with the snapshot that ends it.  It is a run of
      the engine if no segment fails, and also if those that do hold no record of a photo
      whose tombstone the pass drops.  In any case a start-up from its snapshot shows the
      photos of memory, and a full replay does under the condition of
      `PartialPass.PassSafeIff`. */
  method ServeCompaction(disk: Disk, index: PhotoIndex, writer: Writer, failures: Failures, ghost s: Store)
    returns (outcomes: seq<Outcome>, ghost s': Store)
    requires Represents(writer.crc, s, disk, index, writer)
    modifies disk, writer
    ensures s.segs != [] && index.Content() == s.index
    ensures |s.segs| == 1 ==> s' == s && Represents(writer.crc, s', disk, index, writer)
    ensures PassReported(writer.crc, s, failures, outcomes)
    ensures |s.segs| > 1 ==> disk.snapshot.Stored? && PassOutcome(writer.crc, s, failures, disk.logs, disk.snapshot)
    ensures SkippedSegments(failures, Active(s)) == {} ==> SkipSound(s.segs, Active(s), {})
    ensures |s.segs| > 1 && SkipSound(s.segs, Active(s), SkippedSegments(failures, Active(s))) ==>
              && s' == FullyCompacted(writer.crc, s, SkippedSegments(failures, Active(s)), disk.snapshot.records)
              && Represents(writer.crc, s', disk, index, writer) && Reaches(writer.crc, s, s')
  {
    hide Name, Lines, OnDisk, Inv, Reaches, Lists, OnlyActive, RewriteEach, Listing, FullyCompacted;
    hide PassOutcome, PassReported, SkippedSegments, SkipSound;
    ghost var files, file := disk.logs, disk.snapshot;
    ActiveFile(writer.crc, s, files, file);
    OnlyActiveIsOne(writer.crc, s, files, file);
    NothingSkippedIsSound(s.segs, Active(s));
    var compactor := new SegmentCompactor(writer.crc, disk, index, writer);
    outcomes := compactor.CompactAllClosed(failures);
    ReportsOfPass(writer.crc, s, failures, files, file, outcomes);
    s' := s;
    if |s.segs| > 1 {
      ghost var records := disk.snapshot.records;
      PassKeepsActive(writer.crc, s, failures, files, file);
      PassEnds(writer.crc, s, failures, files, file, records);
      if SkipSound(s.segs, Active(s), SkippedSegments(failures, Active(s))) {
        CompactionRefines(writer.crc, s, failures, files, file, records);
        s' := FullyCompacted(writer.crc, s, SkippedSegments(failures, Active(s)), records);
        ActiveFile(writer.crc, s', disk.logs, disk.snapshot);
      }
    }
  }

  // ------------------------------------------------------------------ start-up

  /** `lifespan`: rebuild the index from the disk, then open the writer. */
  method StartUp(crc: Checksum, disk: Disk, maxSegmentBytes: nat) returns (index: PhotoIndex, writer: Writer)
    modifies disk`logs
    ensures fresh(index) && fresh(writer)
    ensures index.Content() == Load(crc, EMPTY, old(disk.logs), disk.snapshot)
    ensures writer.Valid() && writer.isOpen && writer.crc == crc && writer.disk == disk
    ensures writer.maxSegmentBytes == maxSegmentBytes
    ensures exists highest :: IsHighest(old(disk.logs), highest) &&
              writer.segmentCounter == OpenCounter(old(disk.logs), highest, maxSegmentBytes)
    ensures disk.logs == Touch(old(disk.logs), writer.segmentName)
  {
    hide Name, Load;
    index := new PhotoIndex();
    var _ := index.LoadFromSnapshotAndLog(crc, disk);
    writer := new Writer(crc, disk, maxSegmentBytes);
  }

  /** The state after a restart: the index is loaded, a full active segment is left. */
  function Restarted(crc: Checksum, limit: nat, s: Store): Store
    requires s.segs != [] && (s.snapshot.Snapshot? ==> s.snapshot.segment < |s.segs|)
  {
    s.(segs := Settle(crc, limit, s.segs), index := LoadFrom(crc, s.segs, s.snapshot),
       op := Idle, mark := NoMark, pass := Resting)
  }

  lemma RestartReaches(crc: Checksum, limit: nat, s: Store)
    requires Inv(crc, s) && s.segs != [] && Usable(crc, s.segs, s.snapshot) && |s.segs| < MAX_COUNTER
    ensures Reaches(crc, s, Restarted(crc, limit, s)) && AtRest(crc, Restarted(crc, limit, s))
  {
    hide Name, Lines, Inv, LoadFrom, Reaches;
    ReachesItself(crc, s);
    ReachesStep(crc, s, s, Restart);
    if EndSize(crc, s.segs) >= limit { ReachesStep(crc, s, Do(crc, s, Restart), Rotate); }
    ReachesKeepsInv(crc, s, Restarted(crc, limit, s));
  }

  lemma OnDiskParts(crc: Checksum, s: Store, s': Store, files: Directory, files': Directory, file: SnapshotFile)
    requires OnDisk(crc, s, files, file) && s'.snapshot == s.snapshot && Holds(crc, files', s'.segs)
    ensures Holds(crc, files, s.segs) && OnDisk(crc, s', files', file)
  {
    hide Holds, Name;
  }

  lemma RestartRefines(crc: Checksum, limit: nat, s: Store, files: Directory, file: SnapshotFile, highest: nat)
    requires Inv(crc, s) && Usable(crc, s.segs, s.snapshot) && OnDisk(crc, s, files, file)
    requires IsHighest(files, highest) && |s.segs| < MAX_COUNTER
    ensures s.segs != [] && (s.snapshot.Snapshot? ==> s.snapshot.segment < |s.segs|)
    ensures var s' := Restarted(crc, limit, s);
            var counter := OpenCounter(files, highest, limit);
            && Reaches(crc, s, s') && AtRest(crc, s') && counter == |s'.segs|
            && OnDisk(crc, s', Touch(files, Name(counter)), file)
            && s'.index == Load(crc, EMPTY, files, file) && s'.blobs == s.blobs
  {
    SnapshotInSegments(crc, s);
    assert s.segs != [] && Holds(crc, files, s.segs);
    hide Name, Lines, Inv, Holds, IsHighest, OpenCounter, Load, LoadFrom, Live, Reaches, OnDisk, AtRest, After, Settle;
    hide Usable;
    RestartReaches(crc, limit, s);
    LoadOnDisk(crc, s, files, file);
    OpenOfHolds(crc, limit, files, highest, s.segs);
    OnDiskParts(crc, s, Restarted(crc, limit, s), files, Touch(files, Name(OpenCounter(files, highest, limit))), file);
  }

  /** A restart after a crash at any step: it shows the photos that memory showed if and
      only if the snapshot is usable, and then the server is at rest in a state of the
      engine. */
  method ServeRestart(crc: Checksum, disk: Disk, maxSegmentBytes: nat, ghost s: Store)
    returns (index: PhotoIndex, writer: Writer, ghost s': Store)
    requires Reachable(crc, s) && |s.segs| < MAX_COUNTER
    requires OnDisk(crc, s, disk.logs, disk.snapshot) && disk.blobs.Keys == s.blobs
    modifies disk
    ensures fresh(index) && fresh(writer)
    ensures Live(index.primary) == Live(After(s).primary) <==> Usable(crc, s.segs, s.snapshot)
    ensures Usable(crc, s.segs, s.snapshot) ==>
              Represents(crc, s', disk, index, writer) && Reaches(crc, s, s') && Reachable(crc, s')
    ensures RestartSafe(s) ==> Usable(crc, s.segs, s.snapshot)
  {
    hide Name, Lines, Inv, OnDisk, IsHighest, OpenCounter, Load, Live, Reaches, Usable;
    ReachableInv(crc, s);
    ghost var files := disk.logs;
    index, writer := StartUp(crc, disk, maxSegmentBytes);
    assert index.Content().primary == index.primary;
    SnapshotRestartIff(crc, s, files, disk.snapshot);
    if RestartSafe(s) { SnapshotRestartShowsMemory(crc, s, files, disk.snapshot); }
    s' := s;
    if Usable(crc, s.segs, s.snapshot) {
      ghost var highest :| IsHighest(files, highest) &&
        writer.segmentCounter == OpenCounter(files, highest, maxSegmentBytes);
      RestartRefines(crc, maxSegmentBytes, s, files, disk.snapshot, highest);
      s' := Restarted(crc, maxSegmentBytes, s);
      ReachesOnward(crc, INIT, s, s');
    }
  }

  lemma FirstStartRefines(crc: Checksum, limit: nat, files: Directory, highest: nat)
    requires Holds(crc, files, []) && IsHighest(files, highest)
    ensures OpenCounter(files, highest, limit) == 1
    ensures OnDisk(crc, INIT, Touch(files, Name(1)), Missing) && AtRest(crc, INIT)
    ensures Load(crc, EMPTY, files, Missing) == EMPTY
  {
    hide Name, Lines, Inv, Holds, IsHighest, OpenCounter, PutAll, ReplayAll;
    InitInv(crc);
    OpenOfHolds(crc, limit, files, highest, []);
    ReplayAllOfHolds(crc, files, []);
    PutNothing(EMPTY);
  }

  /** The first start on a directory without segments is the engine's initial state. */
  method ServeFirstStart(crc: Checksum, disk: Disk, maxSegmentBytes: nat) returns (index: PhotoIndex, writer: Writer)
    requires Holds(crc, disk.logs, []) && disk.snapshot == Missing && disk.blobs == map[]
    modifies disk
    ensures fresh(index) && fresh(writer) && Represents(crc, INIT, disk, index, writer)
  {
    hide Lines, Inv, OnDisk, IsHighest, OpenCounter, Load, Name, Holds;
    ghost var files := disk.logs;
    index, writer := StartUp(crc, disk, maxSegmentBytes);
    ghost var highest :| IsHighest(files, highest) &&
      writer.segmentCounter == OpenCounter(files, highest, maxSegmentBytes);
    FirstStartRefines(crc, maxSegmentBytes, files, highest);
  }
}
