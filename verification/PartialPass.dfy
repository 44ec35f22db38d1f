/** A compaction pass in which some segments fail and are skipped: what it leaves of the
    log, and exactly when a full replay still shows the photos of memory. */
module PartialPass {
  import opened Basics
  import opened Models
  import opened Names
  import opened LogFormat
  import opened LogReader
  import opened LogReplay
  import opened Index
  import opened Compaction
  import opened Engine
  import opened LogQueries
  import opened EngineInvariant
  import opened EngineTheorems
  import opened Operations

  /** The segments before `j`, of which only the skipped ones keep their records. */
  function SkippedOnly(segs: seq<seq<Photo>>, j: nat, skipped: set<nat>): seq<seq<Photo>>
    requires j <= |segs|
  {
    seq(j, u requires 0 <= u < j => if u in skipped then segs[u] else [])
  }

  /** The photo's last record is a tombstone, and the pass drops it. */
  ghost predicate Dropped(segs: seq<seq<Photo>>, n: nat, skipped: set<nat>, id: string) {
    var home := HomeOf(segs, id);
    home.At? && home.photo.tombstone && home.segment < n && home.segment !in skipped
  }

  /** If the pass drops the photo's tombstone, then what the skipped segments before it
      still hold of the photo does not end with a live record. */
  ghost predicate StaysDeleted(segs: seq<seq<Photo>>, n: nat, skipped: set<nat>, id: string)
    requires n <= |segs|
  {
    Dropped(segs, n, skipped, id) ==>
      var left := HomeOf(SkippedOnly(segs, HomeOf(segs, id).segment, skipped), id);
      left.Nowhere? || left.photo.tombstone
  }

  /** A compacted segment holds a record of a photo exactly when the photo's last record
      in the whole log is there and live, and then that record. */
  lemma CompactedHas(crc: Checksum, primary: Primary, segs: seq<seq<Photo>>, u: nat, id: string)
    requires u < |segs| <= MAX_COUNTER && Agrees(segs, primary, id)
    ensures var home := HomeOf(segs, id);
            LastPhoto(CompactedSegment(crc, primary, segs, u), id) ==
            if home.At? && home.segment == u && !home.photo.tombstone then Some(home.photo) else None
  {
    hide *;
    LastCompacted(crc, primary, segs, u, id);
    HomeIsWhereIndexed(segs, primary, u, id);
  }

  /** The index places a photo with a live record at the end of a segment there exactly
      when that record is its last in the whole log. */
  lemma HomeIsWhereIndexed(segs: seq<seq<Photo>>, primary: Primary, u: nat, id: string)
    requires u < |segs| <= MAX_COUNTER && Agrees(segs, primary, id)
    ensures var last, home := LastPhoto(segs[u], id), HomeOf(segs, id);
            (if last.Some? && !last.value.tombstone && LivesIn(primary, id, u) then last else None) ==
            (if home.At? && home.segment == u && !home.photo.tombstone then Some(home.photo) else None)
  {
    hide HomeOf, LastPhoto, Name, LivesIn;
    HomeSpec(segs, id);
    var home := HomeOf(segs, id);
    if home.At? {
      PlacedAt(segs, primary, u, id);
    } else {
      assert !Has(segs[u], id);
    }
  }

  lemma PlacedAt(segs: seq<seq<Photo>>, primary: Primary, u: nat, id: string)
    requires u < |segs| <= MAX_COUNTER && Agrees(segs, primary, id)
    requires HomeOf(segs, id).At? && HomeOf(segs, id).segment < |segs|
    ensures LivesIn(primary, id, u) <==> id in primary && HomeOf(segs, id).segment == u
    ensures !HomeOf(segs, id).photo.tombstone ==> id in primary
  {
    hide HomeOf, Name;
    var h := HomeOf(segs, id).segment;
    if Name(h + 1) == Name(u + 1) { NameInjective(h + 1, u + 1); }
  }

  /** The last record of a photo in a compacted segment. */
  lemma LastCompacted(crc: Checksum, primary: Primary, segs: seq<seq<Photo>>, u: nat, id: string)
    requires u < |segs|
    ensures var last := LastPhoto(segs[u], id);
            LastPhoto(CompactedSegment(crc, primary, segs, u), id) ==
            if last.Some? && !last.value.tombstone && LivesIn(primary, id, u) then last else None
  {
    var ms := Located(crc, Name(u + 1), segs[u], 0);
    var kept := Compacted(primary, Name(u + 1), ms);
    LastLocated(crc, Name(u + 1), segs[u], 0, id);
    hide Located, LastPhoto, Compacted, Name, Last;
    CompactedSpec(primary, Name(u + 1), ms);
    LastPhotoIsMember(kept, id);
    if LastPhoto(kept, id).Some? {
      assert IsKept(primary, Name(u + 1), ms, LastPhoto(kept, id).value);
    } else if LastPhoto(segs[u], id).Some? {
      assert IsKept(primary, Name(u + 1), ms, LastPhoto(segs[u], id).value) <==>
             !LastPhoto(segs[u], id).value.tombstone && LivesIn(primary, id, u);
    }
  }

  /** What is left of a photo in one segment after the pass. */
  lemma LastAfterPass(
      crc: Checksum, primary: Primary, segs: seq<seq<Photo>>, n: nat, skipped: set<nat>, u: nat, id: string)
    requires n <= |segs| <= MAX_COUNTER && u < |segs| && Agrees(segs, primary, id)
    ensures var home := HomeOf(segs, id);
            LastPhoto(CompactedUpTo(crc, primary, segs, n, skipped)[u], id) ==
            if u >= n || u in skipped then LastPhoto(segs[u], id)
            else if home.At? && home.segment == u && !home.photo.tombstone then Some(home.photo)
            else None
  {
    hide HomeOf, LastPhoto, CompactedSegment, Agrees;
    CompactedUpToAt(crc, primary, segs, n, skipped, u);
    CompactedHas(crc, primary, segs, u, id);
  }

  lemma {:induction false} HomeByLast(a: seq<seq<Photo>>, b: seq<seq<Photo>>, id: string)
    requires |a| == |b| && forall u :: 0 <= u < |a| ==> LastPhoto(a[u], id) == LastPhoto(b[u], id)
    ensures HomeOf(a, id) == HomeOf(b, id)
  {
    hide LastPhoto;
    if a != [] {
      var n := |a| - 1;
      forall u | 0 <= u < n ensures LastPhoto(a[..n][u], id) == LastPhoto(b[..n][u], id) {
        assert a[..n][u] == a[u] && b[..n][u] == b[u];
      }
      HomeByLast(a[..n], b[..n], id);
    }
  }

  /** If the pass drops the photo's tombstone, what is left of it is in skipped segments. */
  lemma HomeWhenDropped(crc: Checksum, primary: Primary, segs: seq<seq<Photo>>, n: nat, skipped: set<nat>, id: string)
    requires n <= |segs| <= MAX_COUNTER && Agrees(segs, primary, id) && Dropped(segs, n, skipped, id)
    requires HomeOf(segs, id).segment < |segs|
    ensures HomeOf(CompactedUpTo(crc, primary, segs, n, skipped), id) ==
            HomeOf(SkippedOnly(segs, HomeOf(segs, id).segment, skipped), id)
  {
    var segs', home := CompactedUpTo(crc, primary, segs, n, skipped), HomeOf(segs, id);
    var j := home.segment;
    hide HomeOf, LastPhoto, CompactedUpTo, Agrees;
    HomeSpec(segs, id);
    forall u: nat | j <= u < |segs| ensures !Has(segs'[u], id) {
      LastAfterPass(crc, primary, segs, n, skipped, u, id);
      if u > j { assert !Has(segs[u], id); }
    }
    HomeOfPrefix(segs', j, id);
    forall u | 0 <= u < j ensures LastPhoto(segs'[..j][u], id) == LastPhoto(SkippedOnly(segs, j, skipped)[u], id) {
      NoPhotoInNothing(id);
      LastAfterPass(crc, primary, segs, n, skipped, u, id);
      assert segs'[..j][u] == segs'[u];
    }
    HomeByLast(segs'[..j], SkippedOnly(segs, j, skipped), id);
  }

  /** Where a photo's last record is after the pass: where it was, unless that was a
      tombstone the pass drops; then where the skipped segments have it. */
  lemma HomeAfterPass(crc: Checksum, primary: Primary, segs: seq<seq<Photo>>, n: nat, skipped: set<nat>, id: string)
    requires n <= |segs| <= MAX_COUNTER && Agrees(segs, primary, id)
    ensures HomeOf(CompactedUpTo(crc, primary, segs, n, skipped), id) ==
            if Dropped(segs, n, skipped, id) then HomeOf(SkippedOnly(segs, HomeOf(segs, id).segment, skipped), id)
            else HomeOf(segs, id)
  {
    var segs', home := CompactedUpTo(crc, primary, segs, n, skipped), HomeOf(segs, id);
    hide HomeOf, LastPhoto, CompactedUpTo, Agrees;
    HomeSpec(segs, id);
    forall u | 0 <= u < |segs|
      ensures LastPhoto(segs'[u], id) ==
              if u >= n || u in skipped then LastPhoto(segs[u], id)
              else if home.At? && home.segment == u && !home.photo.tombstone then Some(home.photo)
              else None
    {
      LastAfterPass(crc, primary, segs, n, skipped, u, id);
    }
    if home.Nowhere? {
      assert forall u :: 0 <= u < |segs| ==> !Has(segs[u], id);
      HomeIsNowhere(segs', id);
    } else if Dropped(segs, n, skipped, id) {
      HomeWhenDropped(crc, primary, segs, n, skipped, id);
    } else {
      assert forall u :: home.segment < u < |segs| ==> !Has(segs[u], id);
      HomeIs(segs', id, home.segment);
    }
  }

  lemma SameLiveAfterPass(
      crc: Checksum, segs: seq<seq<Photo>>, n: nat, skipped: set<nat>, memory: Primary, replay: Primary, id: string)
    requires n <= |segs| <= MAX_COUNTER && Agrees(segs, memory, id)
    requires Agrees(CompactedUpTo(crc, memory, segs, n, skipped), replay, id)
    ensures StaysDeleted(segs, n, skipped, id) <==> LiveAt(replay, id) == LiveAt(memory, id)
  {
    hide HomeOf, Name, CompactedUpTo, SkippedOnly;
    HomeAfterPass(crc, memory, segs, n, skipped, id);
  }

  /** A pass over the first `n` segments that skips any set of them keeps the photos of a
      full replay if and only if every photo whose tombstone it drops stays deleted in the
      skipped segments.  Without skipped segments that is always so. */
  lemma PassSafeIff(crc: Checksum, s: Store, n: nat, skipped: set<nat>)
    requires LogInv(s) && !Pending(s) && n <= |s.segs|
    ensures var segs' := CompactedUpTo(crc, s.index.primary, s.segs, n, skipped);
            Live(PutAll(EMPTY, AllLocated(crc, segs', 0)).primary) == Live(s.index.primary) <==>
            forall id :: StaysDeleted(s.segs, n, skipped, id)
    ensures skipped == {} ==> forall id :: StaysDeleted(s.segs, n, skipped, id)
  {
    assert After(s) == s.index;
    assert forall id :: Agrees(s.segs, s.index.primary, id);
    hide AllLocated, PutAll, HomeOf, StaysDeleted, Agrees, LiveAt, Live, CompactedUpTo, After, Keyed;
    var memory := s.index.primary;
    var segs' := CompactedUpTo(crc, memory, s.segs, n, skipped);
    var replay := PutAll(EMPTY, AllLocated(crc, segs', 0)).primary;
    forall id ensures StaysDeleted(s.segs, n, skipped, id) <==> LiveAt(replay, id) == LiveAt(memory, id) {
      FullReplayAgrees(crc, segs', id);
      SameLiveAfterPass(crc, s.segs, n, skipped, memory, replay, id);
    }
    LiveByPhoto(replay, memory);
    if skipped == {} {
      forall id ensures StaysDeleted(s.segs, n, skipped, id) {
        NothingSkipped(s.segs, n, id);
      }
    }
  }

  lemma NothingSkipped(segs: seq<seq<Photo>>, n: nat, id: string)
    requires n <= |segs|
    ensures StaysDeleted(segs, n, {}, id)
  {
    hide HomeOf, LastPhoto;
    if Dropped(segs, n, {}, id) {
      HomeSpec(segs, id);
      var left := SkippedOnly(segs, HomeOf(segs, id).segment, {});
      NoPhotoInNothing(id);
      forall u | 0 <= u < |left| ensures !Has(left[u], id) {
        assert left[u] == [];
      }
      HomeIsNowhere(left, id);
    }
  }

  /** A pass after which the engine goes on as before is safe in this sense. */
  lemma SkipSoundIsSafe(segs: seq<seq<Photo>>, n: nat, skipped: set<nat>, id: string)
    requires n <= |segs| && SkipSound(segs, n, skipped)
    ensures StaysDeleted(segs, n, skipped, id)
  {
    hide HomeOf, LastPhoto;
    if Dropped(segs, n, skipped, id) {
      var j := HomeOf(segs, id).segment;
      assert SoundAt(segs, j, skipped) && BuriedIn(segs, j, id);
      var left := SkippedOnly(segs, j, skipped);
      NoPhotoInNothing(id);
      forall u: nat | u < |left| ensures !Has(left[u], id) {
        if u in skipped { assert left[u] == segs[u]; }
      }
      HomeIsNowhere(left, id);
    }
  }
}
