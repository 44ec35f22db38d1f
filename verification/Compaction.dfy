/** Compacting one closed segment, as a function of its records and the index. */
module Compaction {
  import opened Basics
  import opened Models
  import opened LogFormat
  import opened LogReader
  import opened Index

  // ------------------------------------------------------------ specification

  /** The keys of the dict `latest`, in the order Python keeps them: a key stays at
      the place of its first insertion. */
  function FirstSeen(ms: seq<PhotoMeta>): seq<string> {
    if ms == [] then []
    else
      var ids := FirstSeen(ms[..|ms| - 1]);
      var id := ms[|ms| - 1].photo.photoId;
      if id in ids then ids else ids + [id]
  }

  /** The record is live and the index still names this segment for its photo. */
  predicate Current(primary: Primary, segment: string, m: PhotoMeta) {
    && !m.photo.tombstone
    && m.photo.photoId in primary
    && primary[m.photo.photoId].segmentId == segment
  }

  /** The loop over `latest.items()` that fills `live_records`. */
  function Kept(primary: Primary, segment: string, ms: seq<PhotoMeta>, ids: seq<string>): seq<Photo> {
    if ids == [] then []
    else
      var kept := Kept(primary, segment, ms, ids[..|ids| - 1]);
      match Last(ms, ids[|ids| - 1])
      case None => kept
      case Some(m) => if Current(primary, segment, m) then kept + [m.photo] else kept
  }

  /** The records written to the compacted segment. */
  function Compacted(primary: Primary, segment: string, ms: seq<PhotoMeta>): seq<Photo> {
    Kept(primary, segment, ms, FirstSeen(ms))
  }

  /** The bytes of the compacted file. */
  function CompactedFile(crc: Checksum, primary: Primary, segment: string, b: Bytes): Bytes {
    Lines(crc, Compacted(primary, segment, Scan(crc, segment, b, 0)))
  }

  // -------------------------------------------------------- the dict of latest

  ghost predicate Distinct<T>(q: seq<T>) {
    forall i, j :: 0 <= i < j < |q| ==> q[i] != q[j]
  }

  lemma {:induction false} FirstSeenSpec(ms: seq<PhotoMeta>)
    ensures Distinct(FirstSeen(ms))
    ensures forall id :: id in FirstSeen(ms) <==> Last(ms, id).Some?
  {
    if ms != [] {
      var n := |ms| - 1;
      FirstSeenSpec(ms[..n]);
    }
  }

  /** Where the first record of a photo is. */
  function FirstIndex(ms: seq<PhotoMeta>, id: string): (i: nat)
    ensures i <= |ms|
    ensures i < |ms| ==> ms[i].photo.photoId == id
    ensures forall k | 0 <= k < i :: ms[k].photo.photoId != id
  {
    if ms == [] then 0
    else
      var i := FirstIndex(ms[..|ms| - 1], id);
      if i < |ms| - 1 || ms[|ms| - 1].photo.photoId == id then i else |ms|
  }

  /** The keys are in the order of the photos' first records. */
  lemma {:induction false} FirstSeenInOrder(ms: seq<PhotoMeta>, a: nat, b: nat)
    requires a < b < |FirstSeen(ms)|
    ensures FirstIndex(ms, FirstSeen(ms)[a]) < FirstIndex(ms, FirstSeen(ms)[b]) < |ms|
  {
    var n := |ms| - 1;
    var init := ms[..n];
    FirstSeenSpec(init);
    SeenIndex(init, FirstSeen(init)[a]);
    if b < |FirstSeen(init)| {
      FirstSeenInOrder(init, a, b);
      SeenIndex(init, FirstSeen(init)[b]);
    } else {
      LastIsMember(init, ms[n].photo.photoId);
    }
  }

  lemma SeenIndex(ms: seq<PhotoMeta>, id: string)
    requires id in FirstSeen(ms)
    ensures FirstIndex(ms, id) < |ms|
  {
    FirstSeenSpec(ms);
    LastIsMember(ms, id);
    var i :| 0 <= i < |ms| && ms[i] == Last(ms, id).value;
  }

  // --------------------------------------------------------- what is written

  function Ids(ps: seq<Photo>): seq<string> {
    seq(|ps|, i requires 0 <= i < |ps| => ps[i].photoId)
  }

  /** `p` is the segment's last record for its photo, and current. */
  ghost predicate IsKept(primary: Primary, segment: string, ms: seq<PhotoMeta>, p: Photo) {
    var last := Last(ms, p.photoId);
    last.Some? && last.value.photo == p && Current(primary, segment, last.value)
  }

  lemma {:induction false} KeptSpec(primary: Primary, segment: string, ms: seq<PhotoMeta>, ids: seq<string>)
    requires Distinct(ids)
    ensures var ps := Kept(primary, segment, ms, ids);
            && (forall p :: p in ps <==> p.photoId in ids && IsKept(primary, segment, ms, p))
            && Distinct(Ids(ps))
  {
    if ids != [] {
      var n := |ids| - 1;
      var id := ids[n];
      var init := Kept(primary, segment, ms, ids[..n]);
      KeptSpec(primary, segment, ms, ids[..n]);
      LastIsMember(ms, id);
      assert ids == ids[..n] + [id];
      assert id !in ids[..n];
      var ps := Kept(primary, segment, ms, ids);
      forall p ensures p in ps <==> p.photoId in ids && IsKept(primary, segment, ms, p) {
      }
      forall i, j | 0 <= i < j < |ps| ensures Ids(ps)[i] != Ids(ps)[j] {
        assert ps[i] in init;
        if j < |init| { assert Ids(init)[i] != Ids(init)[j]; }
      }
    }
  }

  /** The compacted segment holds one record per photo, namely the segment's last
      record for it, exactly when that is live and the index names this segment. */
  lemma CompactedSpec(primary: Primary, segment: string, ms: seq<PhotoMeta>)
    ensures forall p :: p in Compacted(primary, segment, ms) <==> IsKept(primary, segment, ms, p)
    ensures Distinct(Ids(Compacted(primary, segment, ms)))
  {
    FirstSeenSpec(ms);
    KeptSpec(primary, segment, ms, FirstSeen(ms));
  }

  /** The rewritten file replays to exactly those records. */
  lemma CompactedFileReplays(crc: Checksum, primary: Primary, segment: string, b: Bytes)
    ensures var before := Scan(crc, segment, b, 0);
            var after := Scan(crc, segment, CompactedFile(crc, primary, segment, b), 0);
            && (forall id :: Last(after, id).Some? <==>
                  Last(before, id).Some? && Current(primary, segment, Last(before, id).value))
            && (forall id :: Last(after, id).Some? ==> Last(after, id).value.photo == Last(before, id).value.photo)
            && (forall i, j :: 0 <= i < j < |after| ==> after[i].photo.photoId != after[j].photo.photoId)
  {
    hide Scan;
    var before := Scan(crc, segment, b, 0);
    var ps := Compacted(primary, segment, before);
    CompactedSpec(primary, segment, before);
    ScanLines(crc, segment, ps, 0);
    var after := Located(crc, segment, ps, 0);
    forall id
      ensures Last(after, id).Some? <==> Last(before, id).Some? && Current(primary, segment, Last(before, id).value)
      ensures Last(after, id).Some? ==> Last(after, id).value.photo == Last(before, id).value.photo
    {
      LastLocated(crc, segment, ps, 0, id);
      LastIsMember(before, id);
      if Last(before, id).Some? && Current(primary, segment, Last(before, id).value) {
        assert IsKept(primary, segment, before, Last(before, id).value.photo);
      }
    }
    forall i, j | 0 <= i < j < |after| ensures after[i].photo.photoId != after[j].photo.photoId {
      LocatedAt(crc, segment, ps, 0, i);
      LocatedAt(crc, segment, ps, 0, j);
      assert Ids(ps)[i] != Ids(ps)[j];
    }
  }

  /** The last record for a photo in a sequence of logged records. */
  function LastPhoto(ps: seq<Photo>, id: string): Option<Photo> {
    if ps == [] then None
    else if ps[|ps| - 1].photoId == id then Some(ps[|ps| - 1])
    else LastPhoto(ps[..|ps| - 1], id)
  }

  lemma {:induction false} LastPhotoIsMember(ps: seq<Photo>, id: string)
    ensures LastPhoto(ps, id).Some? ==> LastPhoto(ps, id).value in ps && LastPhoto(ps, id).value.photoId == id
    ensures LastPhoto(ps, id).None? <==> forall p :: p in ps ==> p.photoId != id
  {
    if ps != [] && ps[|ps| - 1].photoId != id {
      var n := |ps| - 1;
      LastPhotoIsMember(ps[..n], id);
      assert ps == ps[..n] + [ps[n]];
    }
  }

  /** The placed records of a non-empty segment: all but the last, and the last. */
  lemma LocatedSnoc(crc: Checksum, segment: string, ps: seq<Photo>, base: nat)
    requires ps != []
    ensures var n := |ps| - 1;
            var ms := Located(crc, segment, ps, base);
            && ms[..n] == Located(crc, segment, ps[..n], base)
            && ms[n].photo == ps[n] && ms[n].segmentId == segment
            && ms == ms[..n] + [ms[n]]
  {
    hide Line, Lines, Located;
    var n := |ps| - 1;
    assert ps == ps[..n] + [ps[n]];
    LocatedConcat(crc, segment, ps[..n], [ps[n]], base);
    LocatedOne(crc, segment, ps[n], base + |Lines(crc, ps[..n])|);
  }

  /** Placing records in a segment does not change which is the last. */
  lemma {:induction false} LastLocated(crc: Checksum, segment: string, ps: seq<Photo>, base: nat, id: string)
    ensures var last := Last(Located(crc, segment, ps, base), id);
            && (last.Some? <==> LastPhoto(ps, id).Some?)
            && (last.Some? ==> last.value.photo == LastPhoto(ps, id).value && last.value.segmentId == segment)
            && (last.Some? ==> last.value.photo in ps && last.value.photo.photoId == id)
            && (last.None? ==> forall p :: p in ps ==> p.photoId != id)
    decreases |ps|
  {
    LastPhotoIsMember(ps, id);
    if ps != [] {
      hide Located;
      LocatedSnoc(crc, segment, ps, base);
      LastLocated(crc, segment, ps[..|ps| - 1], base, id);
    }
  }

  // ------------------------------------------------------- compacting again

  lemma {:induction false} FirstSeenOfDistinct(crc: Checksum, segment: string, ps: seq<Photo>, base: nat)
    requires Distinct(Ids(ps))
    ensures FirstSeen(Located(crc, segment, ps, base)) == Ids(ps)
    decreases |ps|
  {
    if ps != [] {
      hide Located;
      var n := |ps| - 1;
      var init := ps[..n];
      LocatedSnoc(crc, segment, ps, base);
      assert Ids(ps) == Ids(init) + [ps[n].photoId];
      assert Distinct(Ids(init)) by {
        forall i, j | 0 <= i < j < n ensures Ids(init)[i] != Ids(init)[j] {
          assert Ids(ps)[i] != Ids(ps)[j];
        }
      }
      assert ps[n].photoId !in Ids(init) by {
        forall i | 0 <= i < n ensures Ids(init)[i] != ps[n].photoId {
          assert Ids(ps)[i] != Ids(ps)[n];
        }
      }
      FirstSeenOfDistinct(crc, segment, init, base);
    }
  }

  lemma {:induction false} LastPhotoOfDistinct(ps: seq<Photo>, i: nat)
    requires Distinct(Ids(ps)) && i < |ps|
    ensures LastPhoto(ps, ps[i].photoId) == Some(ps[i])
  {
    LastPhotoIsMember(ps, ps[i].photoId);
    var last := LastPhoto(ps, ps[i].photoId).value;
    var j :| 0 <= j < |ps| && ps[j] == last;
    assert Ids(ps)[i] == Ids(ps)[j];
  }

  lemma {:induction false} KeepsAll(crc: Checksum, primary: Primary, segment: string, ps: seq<Photo>, n: nat)
    requires Distinct(Ids(ps)) && n <= |ps|
    requires forall p :: p in ps ==> Current(primary, segment, Place(p, segment, 0, 0))
    ensures Kept(primary, segment, Located(crc, segment, ps, 0), Ids(ps)[..n]) == ps[..n]
  {
    hide Distinct, Located, LastPhoto;
    if n > 0 {
      KeepsAll(crc, primary, segment, ps, n - 1);
      var ids := Ids(ps)[..n];
      assert ids[..n - 1] == Ids(ps)[..n - 1] && ids[n - 1] == ps[n - 1].photoId;
      KeepsOne(crc, primary, segment, ps, n - 1);
      assert ps[..n] == ps[..n - 1] + [ps[n - 1]];
    }
  }

  lemma KeepsOne(crc: Checksum, primary: Primary, segment: string, ps: seq<Photo>, i: nat)
    requires Distinct(Ids(ps)) && i < |ps| && Current(primary, segment, Place(ps[i], segment, 0, 0))
    ensures var last := Last(Located(crc, segment, ps, 0), ps[i].photoId);
            last.Some? && last.value.photo == ps[i] && Current(primary, segment, last.value)
  {
    hide Located, LastPhoto, Last, Distinct;
    LastPhotoOfDistinct(ps, i);
    LastLocated(crc, segment, ps, 0, ps[i].photoId);
  }

  /** Compacting again with the same index leaves identical bytes. */
  lemma CompactionIsIdempotent(crc: Checksum, primary: Primary, segment: string, b: Bytes)
    ensures CompactedFile(crc, primary, segment, CompactedFile(crc, primary, segment, b)) ==
            CompactedFile(crc, primary, segment, b)
  {
    hide Scan, Lines, Located;
    var ps := Compacted(primary, segment, Scan(crc, segment, b, 0));
    CompactedSpec(primary, segment, Scan(crc, segment, b, 0));
    ScanLines(crc, segment, ps, 0);
    FirstSeenOfDistinct(crc, segment, ps, 0);
    KeepsAll(crc, primary, segment, ps, |ps|);
    assert Ids(ps)[..|ps|] == Ids(ps) && ps[..|ps|] == ps;
  }

  // ----------------------------------------------------------- never growing

  /** The bytes needed for the last records of `ids`. */
  function Weight(crc: Checksum, ms: seq<PhotoMeta>, ids: seq<string>): nat {
    if ids == [] then 0
    else
      Weight(crc, ms, ids[..|ids| - 1]) +
      (match Last(ms, ids[|ids| - 1]) case None => 0 case Some(m) => |Line(crc, m.photo)|)
  }

  lemma {:induction false} KeptFits(
      crc: Checksum, primary: Primary, segment: string, ms: seq<PhotoMeta>, ids: seq<string>)
    ensures |Lines(crc, Kept(primary, segment, ms, ids))| <= Weight(crc, ms, ids)
  {
    hide Line, Lines;
    if ids != [] {
      var n := |ids| - 1;
      KeptFits(crc, primary, segment, ms, ids[..n]);
      if Last(ms, ids[n]).Some? {
        LinesSnoc(crc, Kept(primary, segment, ms, ids[..n]), Last(ms, ids[n]).value.photo);
      }
    } else {
      LinesOfNothing(crc);
    }
  }

  lemma {:induction false} WeightAfterOneMore(crc: Checksum, ms: seq<PhotoMeta>, m: PhotoMeta, ids: seq<string>)
    requires Distinct(ids)
    ensures Weight(crc, ms + [m], ids) <=
            Weight(crc, ms, ids) + (if m.photo.photoId in ids then |Line(crc, m.photo)| else 0)
  {
    hide Line;
    if ids != [] {
      var n := |ids| - 1;
      WeightAfterOneMore(crc, ms, m, ids[..n]);
      assert (ms + [m])[..|ms + [m]| - 1] == ms;
      assert ids == ids[..n] + [ids[n]] && ids[n] !in ids[..n];
    }
  }

  lemma {:induction false} WeightFits(crc: Checksum, segment: string, ps: seq<Photo>, base: nat)
    ensures Weight(crc, Located(crc, segment, ps, base), FirstSeen(Located(crc, segment, ps, base))) <= |Lines(crc, ps)|
    decreases |ps|
  {
    hide Line, Lines, Located, Weight, FirstSeen;
    if ps == [] {
      WeightOfNothing(crc, segment, base);
    } else {
      var n := |ps| - 1;
      var init := ps[..n];
      assert ps == init + [ps[n]];
      WeightFits(crc, segment, init, base);
      LocatedSnoc(crc, segment, ps, base);
      LinesSnoc(crc, init, ps[n]);
      WeightOfSnoc(crc, Located(crc, segment, init, base), Located(crc, segment, ps, base)[n]);
    }
  }

  lemma WeightOfNothing(crc: Checksum, segment: string, base: nat)
    ensures Weight(crc, Located(crc, segment, [], base), FirstSeen(Located(crc, segment, [], base))) == 0
  {
  }

  lemma WeightOfSnoc(crc: Checksum, ms: seq<PhotoMeta>, m: PhotoMeta)
    ensures Weight(crc, ms + [m], FirstSeen(ms + [m])) <= Weight(crc, ms, FirstSeen(ms)) + |Line(crc, m.photo)|
  {
    hide Line;
    var ids, id := FirstSeen(ms), m.photo.photoId;
    assert (ms + [m])[..|ms + [m]| - 1] == ms;
    FirstSeenSpec(ms);
    WeightAfterOneMore(crc, ms, m, ids);
    if id !in ids {
      assert (ids + [id])[..|ids + [id]| - 1] == ids;
    }
  }

  /** A segment written by `append` never grows. */
  lemma CompactionNeverGrows(crc: Checksum, primary: Primary, segment: string, ps: seq<Photo>)
    ensures |CompactedFile(crc, primary, segment, Lines(crc, ps))| <= |Lines(crc, ps)|
  {
    hide Scan, Lines, Located;
    ScanLines(crc, segment, ps, 0);
    var ms := Located(crc, segment, ps, 0);
    KeptFits(crc, primary, segment, ms, FirstSeen(ms));
    WeightFits(crc, segment, ps, 0);
  }
}
