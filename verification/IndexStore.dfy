/** The in-memory index as the mutable object the services share. */
module IndexStore {
  import opened Basics
  import opened Models
  import opened Names
  import opened LogFormat
  import opened LogReplay
  import opened Index
  import opened Storage

  class PhotoIndex {
    var primary: Primary
    var hashes: map<string, string>

    function Content(): Entries
      reads this
    {
      Entries(primary, hashes)
    }

    constructor ()
      ensures Content() == EMPTY
    {
      primary, hashes := map[], map[];
    }

    method Put(m: PhotoMeta)
      modifies this
      ensures Content() == Index.Put(old(Content()), m)
      ensures primary == old(primary)[m.photo.photoId := m]
      ensures hashes == old(hashes)[m.photo.contentHash := m.photo.photoId]
    {
      primary := primary[m.photo.photoId := m];
      hashes := hashes[m.photo.contentHash := m.photo.photoId];
    }

    function Get(id: string): (m: Option<PhotoMeta>)
      reads this
      ensures m.Some? <==> id in primary
      ensures m.Some? ==> m.value == primary[id]
    {
      if id in primary then Some(primary[id]) else None
    }

    /** Removes a photo and returns its entry; an unknown photo changes nothing. */
    method Delete(id: string) returns (removed: Option<PhotoMeta>)
      modifies this
      ensures removed == old(Get(id))
      ensures Content() == Remove(old(Content()), id)
      ensures primary == old(primary) - {id}
      ensures removed.None? ==> hashes == old(hashes)
      ensures removed.Some? ==>
                var h := removed.value.photo.contentHash;
                hashes == if h in old(hashes) && old(hashes)[h] == id then old(hashes) - {h} else old(hashes)
    {
      removed := Get(id);
      if removed.Some? {
        primary := primary - {id};
        var h := removed.value.photo.contentHash;
        if h in hashes && hashes[h] == id {
          hashes := hashes - {h};
        }
      }
    }

    method PutEach(ms: seq<PhotoMeta>)
      modifies this
      ensures Content() == PutAll(old(Content()), ms)
    {
      var i := 0;
      assert ms[..0] == [];
      while i < |ms|
        invariant 0 <= i <= |ms|
        invariant Content() == PutAll(old(Content()), ms[..i])
      {
        assert ms[..i + 1] == ms[..i] + [ms[i]];
        PutAllConcat(old(Content()), ms[..i], [ms[i]]);
        assert [ms[i]][1..] == [];
        Put(ms[i]);
        i := i + 1;
      }
      assert ms[..|ms|] == ms;
    }

    /** Copies the index and writes it with the watermark, replacing the old file. */
    method SaveSnapshot(disk: Disk, segment: string, offset: nat)
      requires Keyed(primary)
      modifies disk`snapshot
      ensures disk.snapshot.Stored?
      ensures disk.snapshot == Stored(SNAPSHOT_VERSION, segment, offset, disk.snapshot.records)
      ensures disk.snapshot.version == 1
      ensures Lists(disk.snapshot.records, primary) && |disk.snapshot.records| == |primary|
    {
      var copy := primary;
      var records: seq<PhotoMeta> := [];
      var rest := copy.Keys;
      while rest != {}
        invariant rest <= copy.Keys && |records| + |rest| == |copy.Keys|
        invariant forall i :: 0 <= i < |records| ==>
                    records[i].photo.photoId in copy.Keys - rest && copy[records[i].photo.photoId] == records[i]
        invariant forall id :: id in copy && id !in rest ==> copy[id] in records
        invariant forall i, j :: 0 <= i < j < |records| ==> records[i].photo.photoId != records[j].photo.photoId
        decreases |rest|
      {
        var id :| id in rest;
        records := records + [copy[id]];
        rest := rest - {id};
      }
      disk.snapshot := Stored(SNAPSHOT_VERSION, segment, offset, records);
    }

    /** One listed segment: skipped before the watermark's, read from the offset in it,
        read whole behind it. */
    method ReplayListed(
        crc: Checksum, files: Directory, name: string, counter: nat, offset: nat) returns (replayed: nat)
      modifies this
      ensures Content() == PutAll(old(Content()), ReplayFileAfter(crc, files, name, counter, offset))
      ensures replayed == |ReplayFileAfter(crc, files, name, counter, offset)|
    {
      hide Name, ReplayFile, ReplayFileFrom;
      var part := [];
      if !IsSegment(name) || Counter(name) < counter {
      } else if Counter(name) == counter {
        part := ReplaySegmentFromOffset(crc, files, name, offset);
      } else {
        part := ReplaySegment(crc, files, name);
      }
      PutEach(part);
      replayed := |part|;
    }

    /** The loop of `_replay_after` over the listed segments. */
    method ReplayEachListed(crc: Checksum, files: Directory, names: seq<string>, counter: nat, offset: nat)
      returns (replayed: nat)
      modifies this
      ensures Content() == PutAll(old(Content()), ReplayNamesAfter(crc, files, names, counter, offset))
      ensures replayed == |ReplayNamesAfter(crc, files, names, counter, offset)|
    {
      assert names[0..] == names;
      ghost var all := ReplayNamesAfter(crc, files, names, counter, offset);
      assert ReplayNamesAfter(crc, files, [], counter, offset) == [];
      replayed := 0;
      var i := 0;
      hide *;
      while i < |names|
        invariant 0 <= i <= |names|
        invariant PutAll(Content(), ReplayNamesAfter(crc, files, names[i..], counter, offset)) ==
          PutAll(old(Content()), all)
        invariant replayed + |ReplayNamesAfter(crc, files, names[i..], counter, offset)| == |all|
      {
        ReplayNamesAfterStep(crc, files, names, i, counter, offset);
        PutAllConcat(Content(), ReplayFileAfter(crc, files, names[i], counter, offset),
                     ReplayNamesAfter(crc, files, names[i + 1..], counter, offset));
        var n := ReplayListed(crc, files, names[i], counter, offset);
        replayed := replayed + n;
        i := i + 1;
      }
      assert names[i..] == [];
      PutNothing(Content());
    }

    /** `_replay_after`: nothing for an invalid watermark, otherwise all listed segments
        in order. */
    method ReplayAfterWatermark(crc: Checksum, disk: Disk, segment: string, offset: nat) returns (replayed: nat)
      modifies this
      ensures Content() == PutAll(old(Content()), ReplayAfter(crc, disk.logs, segment, offset))
      ensures replayed == |ReplayAfter(crc, disk.logs, segment, offset)|
      ensures !IsSegment(segment) ==> Content() == old(Content()) && replayed == 0
    {
      hide ReplayNamesAfter, Counter, Listing;
      if IsSegment(segment) {
        replayed := ReplayEachListed(crc, disk.logs, Listing(disk.logs.Keys), Counter(segment), offset);
      } else {
        replayed := 0;
      }
    }

    /** `load_from_log` */
    method LoadFromLog(crc: Checksum, disk: Disk) returns (count: nat)
      modifies this
      ensures Content() == PutAll(old(Content()), ReplayAll(crc, disk.logs))
      ensures count == |ReplayAll(crc, disk.logs)|
    {
      var ms := ReplayDirectory(crc, disk.logs);
      PutEach(ms);
      count := |ms|;
    }

    /** `load_from_snapshot_and_log` */
    method LoadFromSnapshotAndLog(crc: Checksum, disk: Disk) returns (count: nat)
      modifies this
      ensures Content() == Load(crc, old(Content()), disk.logs, disk.snapshot)
      ensures Content() == PutAll(old(Content()), StartUpRecords(crc, disk.logs, disk.snapshot))
      ensures count == |primary|
    {
      match disk.snapshot
      case Missing =>
        var _ := LoadFromLog(crc, disk);
        count := |primary|;
      case Unreadable =>
        var _ := LoadFromLog(crc, disk);
        count := |primary|;
      case Stored(version, segment, offset, records) =>
        if version != SNAPSHOT_VERSION {
          var _ := LoadFromLog(crc, disk);
        } else {
          PutAllConcat(Content(), records, ReplayAfter(crc, disk.logs, segment, offset));
          PutEach(records);
          var _ := ReplayAfterWatermark(crc, disk, segment, offset);
        }
        count := |primary|;
    }
  }
}
