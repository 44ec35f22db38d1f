/** The in-memory index as a value: what `put`, `delete`, a replay and a snapshot make
    of it. */
module Index {
  import opened Basics
  import opened Models
  import opened LogFormat
  import opened LogReplay

  type Primary = map<string, PhotoMeta>

  /** `_primary` and `_hash_index`. */
  datatype Entries = Entries(primary: Primary, hashes: map<string, string>)

  const EMPTY := Entries(map[], map[])

  function Put(ix: Entries, m: PhotoMeta): Entries {
    Entries(ix.primary[m.photo.photoId := m], ix.hashes[m.photo.contentHash := m.photo.photoId])
  }

  function PutAll(ix: Entries, ms: seq<PhotoMeta>): Entries
    decreases |ms|
  {
    if ms == [] then ix else PutAll(Put(ix, ms[0]), ms[1..])
  }

  /** `delete`: the hash entry goes only if it still points to this photo. */
  function Remove(ix: Entries, id: string): Entries {
    if id !in ix.primary then ix
    else
      var h := ix.primary[id].photo.contentHash;
      Entries(ix.primary - {id},
              if h in ix.hashes && ix.hashes[h] == id then ix.hashes - {h} else ix.hashes)
  }

  predicate ContainsHash(ix: Entries, h: string) {
    h in ix.hashes
  }

  function GetByHash(ix: Entries, h: string): Option<PhotoMeta> {
    if h in ix.hashes && ix.hashes[h] in ix.primary then Some(ix.primary[ix.hashes[h]]) else None
  }

  // ---------------------------------------------------------------- snapshots

  const SNAPSHOT_VERSION: nat := 1

  /** `index-snapshot.bin`: absent, not readable as JSON, or a version, a watermark and
      the records in the order they were written. */
  datatype SnapshotFile =
    | Missing
    | Unreadable
    | Stored(version: nat, segment: string, offset: nat, records: seq<PhotoMeta>)

  /** What start-up leaves in the index: the snapshot and the log behind its watermark,
      or the whole log if there is no snapshot that can be used. */
  function Load(crc: Checksum, ix: Entries, files: Directory, snapshot: SnapshotFile): Entries {
    if snapshot.Stored? && snapshot.version == SNAPSHOT_VERSION then
      PutAll(PutAll(ix, snapshot.records), ReplayAfter(crc, files, snapshot.segment, snapshot.offset))
    else
      PutAll(ix, ReplayAll(crc, files))
  }

  /** `records` lists the values of `primary`, each once, in some order. */
  predicate Lists(records: seq<PhotoMeta>, primary: Primary) {
    && (forall i :: 0 <= i < |records| ==>
          records[i].photo.photoId in primary && primary[records[i].photo.photoId] == records[i])
    && (forall id :: id in primary ==> primary[id] in records)
    && (forall i, j :: 0 <= i < j < |records| ==> records[i].photo.photoId != records[j].photo.photoId)
  }

  ghost predicate Keyed(primary: Primary) {
    forall id :: id in primary ==> primary[id].photo.photoId == id
  }

  // ------------------------------------------------------------ the live part

  /** An entry without the bookkeeping that compaction leaves stale. */
  function Settled(m: PhotoMeta): PhotoMeta {
    m.(offset := 0, length := 0)
  }

  /** The photos an index shows: entries that are not tombstones. */
  function Live(primary: Primary): Primary {
    map id | id in primary && !primary[id].photo.tombstone :: Settled(primary[id])
  }

  // ------------------------------------------------------- replay is last-wins

  /** The last record for `id`. */
  function Last(ms: seq<PhotoMeta>, id: string): Option<PhotoMeta> {
    if ms == [] then None
    else if ms[|ms| - 1].photo.photoId == id then Some(ms[|ms| - 1])
    else Last(ms[..|ms| - 1], id)
  }

  lemma {:induction false} PutAllConcat(ix: Entries, a: seq<PhotoMeta>, b: seq<PhotoMeta>)
    ensures PutAll(ix, a + b) == PutAll(PutAll(ix, a), b)
    decreases |a|
  {
    if a == [] {
      assert a + b == b;
    } else {
      assert (a + b)[0] == a[0] && (a + b)[1..] == a[1..] + b;
      PutAllConcat(Put(ix, a[0]), a[1..], b);
    }
  }

  lemma PutNothing(ix: Entries)
    ensures PutAll(ix, []) == ix
  {
  }

  /** After a replay each photo has the last record read for it, or else the entry it
      had before. */
  lemma {:induction false} PutAllIsLast(ix: Entries, ms: seq<PhotoMeta>, id: string)
    ensures var after := PutAll(ix, ms).primary;
            match Last(ms, id)
            case Some(m) => id in after && after[id] == m
            case None => if id in ix.primary then id in after && after[id] == ix.primary[id] else id !in after
    decreases |ms|
  {
    if ms != [] {
      var n := |ms| - 1;
      assert ms == ms[..n] + [ms[n]];
      PutAllConcat(ix, ms[..n], [ms[n]]);
      assert [ms[n]][1..] == [];
      PutAllIsLast(ix, ms[..n], id);
    }
  }

  lemma {:induction false} LastIsMember(ms: seq<PhotoMeta>, id: string)
    ensures Last(ms, id).Some? ==> Last(ms, id).value in ms && Last(ms, id).value.photo.photoId == id
    ensures Last(ms, id).None? ==> forall m :: m in ms ==> m.photo.photoId != id
  {
    if ms != [] && ms[|ms| - 1].photo.photoId != id {
      var n := |ms| - 1;
      LastIsMember(ms[..n], id);
      forall m | m in ms ensures m == ms[n] || m in ms[..n] {
        var i :| 0 <= i < |ms| && ms[i] == m;
        if i < n { assert ms[..n][i] == m; }
      }
    }
  }

  lemma {:induction false} LastConcat(a: seq<PhotoMeta>, b: seq<PhotoMeta>, id: string)
    ensures Last(a + b, id) == if Last(b, id).Some? then Last(b, id) else Last(a, id)
  {
    if b == [] {
      assert a + b == a;
    } else {
      var n := |b| - 1;
      assert (a + b)[..|a + b| - 1] == a + b[..n];
      LastConcat(a, b[..n], id);
    }
  }

  lemma {:induction false} PutAllKeyed(ix: Entries, ms: seq<PhotoMeta>)
    requires Keyed(ix.primary)
    ensures Keyed(PutAll(ix, ms).primary)
    decreases |ms|
  {
    if ms != [] { PutAllKeyed(Put(ix, ms[0]), ms[1..]); }
  }

  /** Replaying a stretch `b` of the log that the index has already, and going on behind it,
      leaves the entries that a replay of everything once leaves. */
  lemma ReplayOverlap(ix: Entries, a: seq<PhotoMeta>, b: seq<PhotoMeta>, c: seq<PhotoMeta>)
    ensures PutAll(PutAll(ix, a + b), b + c).primary == PutAll(ix, a + b + c).primary
  {
    var once, twice := PutAll(ix, a + b + c).primary, PutAll(PutAll(ix, a + b), b + c).primary;
    forall id ensures id in once <==> id in twice
              ensures id in once && id in twice ==> once[id] == twice[id] {
      PutAllIsLast(ix, a + b, id);
      PutAllIsLast(PutAll(ix, a + b), b + c, id);
      PutAllIsLast(ix, a + b + c, id);
      LastConcat(a, b, id);
      LastConcat(b, c, id);
      LastConcat(a + b, c, id);
    }
  }

  // ------------------------------------------------------ snapshot round trip

  lemma LastOfListing(records: seq<PhotoMeta>, primary: Primary, id: string)
    requires Lists(records, primary) && Keyed(primary)
    ensures Last(records, id) == if id in primary then Some(primary[id]) else None
  {
    LastIsMember(records, id);
    if Last(records, id).Some? {
      var i :| 0 <= i < |records| && records[i] == Last(records, id).value;
    }
    if id in primary {
      assert primary[id] in records;
    }
  }

  /** Saving and loading gives back `_primary`, in whatever order the records are put
      back. */
  lemma SnapshotRestoresPrimary(records: seq<PhotoMeta>, primary: Primary)
    requires Lists(records, primary) && Keyed(primary)
    ensures PutAll(EMPTY, records).primary == primary
  {
    var after := PutAll(EMPTY, records).primary;
    forall id ensures id in after <==> id in primary
              ensures id in after && id in primary ==> after[id] == primary[id] {
      PutAllIsLast(EMPTY, records, id);
      LastOfListing(records, primary, id);
    }
  }

  // --------------------------------------------- the hash index is an inverse

  /** `_hash_index` is the exact inverse of `_primary`. */
  ghost predicate Inverse(ix: Entries) {
    && Keyed(ix.primary)
    && (forall id :: id in ix.primary ==>
          ix.primary[id].photo.contentHash in ix.hashes && ix.hashes[ix.primary[id].photo.contentHash] == id)
    && (forall h :: h in ix.hashes ==>
          ix.hashes[h] in ix.primary && ix.primary[ix.hashes[h]].photo.contentHash == h)
  }

  /** The index part of the three services: an upload is refused when its hash is
      known, a thumbnail replaces the entry of a known photo, a delete removes it. */
  datatype Change =
    | Upload(m: PhotoMeta)
    | Thumbnail(id: string, paths: seq<Bytes>, segment: string, offset: nat, length: nat)
    | Delete(id: string)

  function Apply(ix: Entries, c: Change): Entries {
    match c
    case Upload(m) =>
      if ContainsHash(ix, m.photo.contentHash) || m.photo.photoId in ix.primary then ix else Put(ix, m)
    case Thumbnail(id, paths, segment, offset, length) =>
      if id !in ix.primary then ix
      else Put(ix, Place(ix.primary[id].photo.(thumbnailPaths := paths), segment, offset, length))
    case Delete(id) => Remove(ix, id)
  }

  function ApplyAll(ix: Entries, cs: seq<Change>): Entries
    decreases |cs|
  {
    if cs == [] then ix else ApplyAll(Apply(ix, cs[0]), cs[1..])
  }

  lemma ApplyKeepsInverse(ix: Entries, c: Change)
    requires Inverse(ix)
    ensures Inverse(Apply(ix, c))
  {
  }

  lemma {:induction false} ApplyAllKeepsInverse(ix: Entries, cs: seq<Change>)
    requires Inverse(ix)
    ensures Inverse(ApplyAll(ix, cs))
    decreases |cs|
  {
    if cs != [] {
      ApplyKeepsInverse(ix, cs[0]);
      ApplyAllKeepsInverse(Apply(ix, cs[0]), cs[1..]);
    }
  }

  /** Over every serial run of uploads, thumbnails and deletes from an empty index: the
      two maps are inverse to each other, no two photos share a hash, and the
      duplicate check succeeds exactly when the existing photo can be returned. */
  lemma DeduplicationIsExact(cs: seq<Change>)
    ensures var ix := ApplyAll(EMPTY, cs);
            && Inverse(ix)
            && (forall a, b | a in ix.primary && b in ix.primary ::
                  ix.primary[a].photo.contentHash == ix.primary[b].photo.contentHash ==> a == b)
            && (forall h :: ContainsHash(ix, h) <==> GetByHash(ix, h).Some?)
            && (forall h :: GetByHash(ix, h).Some? ==> GetByHash(ix, h).value.photo.contentHash == h)
  {
    ApplyAllKeepsInverse(EMPTY, cs);
  }

  /** The last record with the content `h`. */
  function LastWith(ms: seq<PhotoMeta>, h: string): Option<PhotoMeta> {
    if ms == [] then None
    else if ms[|ms| - 1].photo.contentHash == h then Some(ms[|ms| - 1])
    else LastWith(ms[..|ms| - 1], h)
  }

  /** After a replay each content read leads to the photo of the last record with it, and
      every other content to the photo it led to before. */
  lemma {:induction false} PutAllHashIsLast(ix: Entries, ms: seq<PhotoMeta>, h: string)
    ensures var after := PutAll(ix, ms).hashes;
            match LastWith(ms, h)
            case Some(m) => m in ms && m.photo.contentHash == h && h in after && after[h] == m.photo.photoId
            case None =>
              && (forall m | m in ms :: m.photo.contentHash != h)
              && (h in after <==> h in ix.hashes) && (h in after ==> after[h] == ix.hashes[h])
    decreases |ms|
  {
    if ms != [] {
      var n := |ms| - 1;
      assert ms == ms[..n] + [ms[n]];
      PutAllConcat(ix, ms[..n], [ms[n]]);
      assert [ms[n]][1..] == [];
      PutAllHashIsLast(ix, ms[..n], h);
    }
  }

  /** What the duplicate check finds after a replay into an empty index: the entry, as it
      is by then, of the photo that had the content last. */
  lemma DuplicateAfterReplay(ms: seq<PhotoMeta>, h: string)
    ensures match LastWith(ms, h)
            case Some(m) => GetByHash(PutAll(EMPTY, ms), h) == Last(ms, m.photo.photoId) != None
            case None => GetByHash(PutAll(EMPTY, ms), h) == None
  {
    PutAllHashIsLast(EMPTY, ms, h);
    match LastWith(ms, h)
    case Some(m) =>
      PutAllIsLast(EMPTY, ms, m.photo.photoId);
      LastIsMember(ms, m.photo.photoId);
    case None =>
  }

  /** The records that start-up puts, in their order: those of the snapshot and those behind
      its watermark, or all of the log if no snapshot of this version can be read. */
  function StartUpRecords(crc: Checksum, files: Directory, snapshot: SnapshotFile): seq<PhotoMeta> {
    if snapshot.Stored? && snapshot.version == 1 then
      snapshot.records + ReplayAfter(crc, files, snapshot.segment, snapshot.offset)
    else
      ReplayAll(crc, files)
  }

  /** What is in the index after start-up: for each photo the last record put for it, and
      for each content the photo of the last record put with it. */
  lemma StartUpIsLast(crc: Checksum, files: Directory, snapshot: SnapshotFile, id: string, h: string)
    ensures var ix, ms := Load(crc, EMPTY, files, snapshot), StartUpRecords(crc, files, snapshot);
            && (if id in ix.primary then Last(ms, id) == Some(ix.primary[id]) else Last(ms, id) == None)
            && (match LastWith(ms, h)
                case Some(m) => GetByHash(ix, h) == Last(ms, m.photo.photoId) != None
                case None => !ContainsHash(ix, h) && GetByHash(ix, h) == None)
  {
    hide ReplayAfter, ReplayAll, PutAll, Last, LastWith;
    var ms := StartUpRecords(crc, files, snapshot);
    if snapshot.Stored? && snapshot.version == 1 {
      PutAllConcat(EMPTY, snapshot.records, ReplayAfter(crc, files, snapshot.segment, snapshot.offset));
    }
    PutAllIsLast(EMPTY, ms, id);
    DuplicateAfterReplay(ms, h);
    PutAllHashIsLast(EMPTY, ms, h);
  }

  lemma {:induction false} PutAllHashes(ix: Entries, ms: seq<PhotoMeta>, h: string)
    ensures var after := PutAll(ix, ms).hashes;
            if h in after then
              || (h in ix.hashes && after[h] == ix.hashes[h])
              || exists m :: m in ms && m.photo.contentHash == h && after[h] == m.photo.photoId
            else
              h !in ix.hashes && forall m :: m in ms ==> m.photo.contentHash != h
    decreases |ms|
  {
    if ms != [] {
      PutAllHashes(Put(ix, ms[0]), ms[1..], h);
      assert ms == [ms[0]] + ms[1..];
    }
  }

  /** When content hashes are unique, saving and loading gives back both maps,
      whatever order the records are put back in. */
  lemma SnapshotRestoresBoth(records: seq<PhotoMeta>, ix: Entries)
    requires Lists(records, ix.primary) && Inverse(ix)
    ensures PutAll(EMPTY, records) == ix
  {
    SnapshotRestoresPrimary(records, ix.primary);
    var after := PutAll(EMPTY, records).hashes;
    forall h ensures h in after <==> h in ix.hashes
             ensures h in after && h in ix.hashes ==> after[h] == ix.hashes[h] {
      PutAllHashes(EMPTY, records, h);
      if h in ix.hashes {
        assert ix.primary[ix.hashes[h]] in records;
      }
    }
    assert after == ix.hashes;
  }
}
