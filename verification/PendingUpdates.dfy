/** Between the append of a record and its index update a compaction pass or a snapshot may
    consult the index.  What comes of it, and exactly when that is as it should be. */
module PendingUpdates {
  import opened Basics
  import opened Models
  import opened Names
  import opened LogFormat
  import opened LogReplay
  import opened Index
  import opened Compaction
  import opened Engine
  import opened LogQueries
  import opened EngineInvariant
  import opened EngineTheorems
  import opened Operations
  import opened PartialPass

  /** The photo with the pending update is safe from a pass over the first `n` segments: its
      record is behind them, or the index places the photo in that segment already, or it
      was deleted before. */
  ghost predicate Spared(s: Store, n: nat)
    requires Pending(s)
  {
    var id, home := PendingId(s), HomeOf(s.segs, PendingId(s));
    home.At? &&
    (home.segment >= n || LivesIn(s.index.primary, id, home.segment) ||
     (id in s.index.primary && s.index.primary[id].photo.tombstone))
  }

  /** Two indexes that agree with the log on a photo show the same of it. */
  lemma AgreeSameLive(segs: seq<seq<Photo>>, a: Primary, b: Primary, id: string)
    requires Agrees(segs, a, id) && Agrees(segs, b, id)
    ensures LiveAt(a, id) == LiveAt(b, id)
  {
    hide HomeOf, Name;
  }

  /** The segment of the pending record after the pass. */
  lemma PendingSegment(crc: Checksum, s: Store, n: nat, u: nat)
    requires Inv(crc, s) && Pending(s) && n <= |s.segs| && u < |s.segs|
    ensures var id, last := PendingId(s), LastPhoto(s.segs[u], PendingId(s));
            LastPhoto(CompactedUpTo(crc, s.index.primary, s.segs, n, {})[u], id) ==
            if u >= n || (last.Some? && !last.value.tombstone && LivesIn(s.index.primary, id, u)) then last else None
  {
    hide *;
    CompactedUpToAt(crc, s.index.primary, s.segs, n, {}, u);
    if u < n { LastCompacted(crc, s.index.primary, s.segs, u, PendingId(s)); }
  }

  lemma InvParts(crc: Checksum, s: Store)
    requires Inv(crc, s)
    ensures LogInv(s) && PendingInv(s) && |s.segs| <= MAX_COUNTER
  {
    hide SnapshotInv, MarkInv, PassInv, BlobInv, PendingInv, PlacedInv, Agrees;
  }

  /** The index places a photo in at most one segment. */
  lemma OnePlace(primary: Primary, id: string, i: nat, j: nat)
    requires i < MAX_COUNTER && j < MAX_COUNTER && LivesIn(primary, id, i) && LivesIn(primary, id, j)
    ensures i == j
  {
    hide Name;
    NameInjective(i + 1, j + 1);
  }

  /** A record behind the pass stays the photo's last. */
  lemma HomeBehindPass(crc: Checksum, s: Store, n: nat)
    requires Inv(crc, s) && Pending(s) && n <= |s.segs|
    requires HomeOf(s.segs, PendingId(s)).At? && HomeOf(s.segs, PendingId(s)).segment >= n
    ensures HomeOf(CompactedUpTo(crc, s.index.primary, s.segs, n, {}), PendingId(s)) == HomeOf(s.segs, PendingId(s))
  {
    hide Inv, HomeOf, LastPhoto, CompactedUpTo, LivesIn;
    var id, segs' := PendingId(s), CompactedUpTo(crc, s.index.primary, s.segs, n, {});
    HomeSpec(s.segs, id);
    var h := HomeOf(s.segs, id).segment;
    forall u: nat | h <= u < |segs'| ensures LastPhoto(segs'[u], id) == LastPhoto(s.segs[u], id) {
      PendingSegment(crc, s, n, u);
    }
    assert forall u: nat | h < u < |segs'| :: !Has(segs'[u], id);
    HomeIs(segs', id, h);
  }

  /** A record where the index places the photo already is kept, unless it is a tombstone,
      and nothing else is. */
  lemma HomeWhereIndexed(crc: Checksum, s: Store, n: nat)
    requires Inv(crc, s) && Pending(s) && n <= |s.segs|
    requires HomeOf(s.segs, PendingId(s)).At? && HomeOf(s.segs, PendingId(s)).segment < n
    requires LivesIn(s.index.primary, PendingId(s), HomeOf(s.segs, PendingId(s)).segment)
    ensures HomeOf(CompactedUpTo(crc, s.index.primary, s.segs, n, {}), PendingId(s)) ==
            if HomeOf(s.segs, PendingId(s)).photo.tombstone then Nowhere else HomeOf(s.segs, PendingId(s))
  {
    InvParts(crc, s);
    hide Inv, HomeOf, LastPhoto, CompactedUpTo, LivesIn, LogInv, PendingInv;
    var id, segs' := PendingId(s), CompactedUpTo(crc, s.index.primary, s.segs, n, {});
    HomeSpec(s.segs, id);
    var home := HomeOf(s.segs, id);
    forall u: nat | u < |segs'|
      ensures LastPhoto(segs'[u], id) ==
              if u == home.segment && !home.photo.tombstone then Some(home.photo) else None
    {
      PendingSegment(crc, s, n, u);
      if u >= n { assert !Has(s.segs[u], id); }
      if u < n && LivesIn(s.index.primary, id, u) { OnePlace(s.index.primary, id, u, home.segment); }
    }
    if home.photo.tombstone {
      assert forall u: nat | u < |segs'| :: !Has(segs'[u], id);
      HomeIsNowhere(segs', id);
    } else {
      assert forall u: nat | home.segment < u < |segs'| :: !Has(segs'[u], id);
      HomeIs(segs', id, home.segment);
    }
  }

  /** A record elsewhere is dropped, and the photo falls back on the record the index has. */
  lemma HomeFallsBack(crc: Checksum, s: Store, n: nat)
    requires Inv(crc, s) && Pending(s) && n <= |s.segs|
    requires HomeOf(s.segs, PendingId(s)).At? && HomeOf(s.segs, PendingId(s)).segment < n
    requires !LivesIn(s.index.primary, PendingId(s), HomeOf(s.segs, PendingId(s)).segment)
    ensures var id, home' := PendingId(s), HomeOf(CompactedUpTo(crc, s.index.primary, s.segs, n, {}), PendingId(s));
            if IsLive(s.index.primary, id)
            then home'.At? && home'.segment != HomeOf(s.segs, id).segment && !home'.photo.tombstone &&
                 home'.segment < |s.segs|
            else home'.Nowhere?
  {
    InvParts(crc, s);
    hide Inv, HomeOf, LastPhoto, CompactedUpTo, LivesIn, LogInv;
    var id, segs', primary := PendingId(s), CompactedUpTo(crc, s.index.primary, s.segs, n, {}), s.index.primary;
    HomeSpec(s.segs, id);
    var h := HomeOf(s.segs, id).segment;
    forall u: nat | u < |segs'|
      ensures Has(segs'[u], id) <==>
              u < n && LivesIn(primary, id, u) && Has(s.segs[u], id) && !LastPhoto(s.segs[u], id).value.tombstone
      ensures Has(segs'[u], id) ==> LastPhoto(segs'[u], id) == LastPhoto(s.segs[u], id)
      ensures Has(segs'[u], id) ==> u != h && LastPhoto(s.segs[u], id) == Some(primary[id].photo)
    {
      PendingSegment(crc, s, n, u);
      if u >= n { assert !Has(s.segs[u], id); }
      if LivesIn(primary, id, u) { PlacedIsIndexed(primary, id, u); }
    }
    if IsLive(primary, id) {
      var i: nat :| i < |s.segs| && LivesIn(primary, id, i) && (i == h || Has(s.segs[i], id));
      assert LastPhoto(s.segs[i], id) == Some(primary[id].photo);
      assert i < n && Has(segs'[i], id);
      forall u: nat | i < u < |segs'| ensures !Has(segs'[u], id) {
        if Has(segs'[u], id) { OnePlace(primary, id, i, u); }
      }
      HomeIs(segs', id, i);
    } else {
      assert forall u: nat | u < |segs'| :: !Has(segs'[u], id);
      HomeIsNowhere(segs', id);
    }
  }

  lemma PlacedIsIndexed(primary: Primary, id: string, u: nat)
    requires LivesIn(primary, id, u)
    ensures id in primary
  {
    hide Name;
  }

  /** If the photo falls back on an older record, that is not what memory shows. */
  lemma FallBackDiffers(segs: seq<seq<Photo>>, segs': seq<seq<Photo>>, memory: Primary, replay: Primary, id: string)
    requires Agrees(segs, memory, id) && Agrees(segs', replay, id) && |segs| <= MAX_COUNTER
    requires var home, home' := HomeOf(segs, id), HomeOf(segs', id);
             home.At? && home.segment < |segs| &&
             if home'.At?
             then home'.segment < |segs| && home'.segment != home.segment && !home'.photo.tombstone
             else !home.photo.tombstone
    ensures LiveAt(replay, id) != LiveAt(memory, id)
  {
    hide HomeOf, Name;
    var home, home' := HomeOf(segs, id), HomeOf(segs', id);
    if home'.At? && Name(home'.segment + 1) == Name(home.segment + 1) {
      NameInjective(home'.segment + 1, home.segment + 1);
    }
  }

  /** What spares the pending photo, in one case after the other. */
  lemma SparedMeans(s: Store, n: nat)
    requires Pending(s) && PendingInv(s) && |s.segs| <= MAX_COUNTER
    ensures var id, home := PendingId(s), HomeOf(s.segs, PendingId(s));
            && home.At? && home.segment < |s.segs|
            && (home.segment >= n || LivesIn(s.index.primary, id, home.segment) ==> Spared(s, n))
            && (home.segment < n && !LivesIn(s.index.primary, id, home.segment) ==>
                  (IsLive(s.index.primary, id) ==> !Spared(s, n)) &&
                  (!IsLive(s.index.primary, id) ==> (Spared(s, n) <==> home.photo.tombstone)))
  {
    hide HomeOf, LivesIn, Stale, Looked, LastPhoto;
    HomeSpec(s.segs, PendingId(s));
  }

  /** The pending photo after the pass. */
  lemma PendingAfterPass(crc: Checksum, s: Store, n: nat, replay: Primary)
    requires Inv(crc, s) && Pending(s) && n <= |s.segs|
    requires Agrees(CompactedUpTo(crc, s.index.primary, s.segs, n, {}), replay, PendingId(s))
    ensures Spared(s, n) <==> LiveAt(replay, PendingId(s)) == LiveAt(After(s).primary, PendingId(s))
  {
    hide *;
    InvParts(crc, s);
    var id, memory := PendingId(s), After(s).primary;
    LogAgrees(s, id);
    SparedMeans(s, n);
    var home, segs' := HomeOf(s.segs, id), CompactedUpTo(crc, s.index.primary, s.segs, n, {});
    if home.segment >= n {
      HomeBehindPass(crc, s, n);
      HarmlessSameLive(s.segs, segs', memory, replay, id);
    } else if LivesIn(s.index.primary, id, home.segment) {
      HomeWhereIndexed(crc, s, n);
      HarmlessSameLive(s.segs, segs', memory, replay, id);
    } else {
      HomeFallsBack(crc, s, n);
      if IsLive(s.index.primary, id) || !home.photo.tombstone {
        FallBackDiffers(s.segs, segs', memory, replay, id);
      } else {
        HarmlessSameLive(s.segs, segs', memory, replay, id);
      }
    }
  }

  lemma LogAgrees(s: Store, id: string)
    requires LogInv(s)
    ensures Agrees(s.segs, After(s).primary, id)
  {
    hide Agrees;
  }

  lemma HarmlessSameLive(segs: seq<seq<Photo>>, segs': seq<seq<Photo>>, memory: Primary, replay: Primary, id: string)
    requires Agrees(segs, memory, id) && Agrees(segs', replay, id)
    requires var home, home' := HomeOf(segs, id), HomeOf(segs', id);
             home' == home || (home.At? && home.photo.tombstone && home'.Nowhere?)
    ensures LiveAt(replay, id) == LiveAt(memory, id)
  {
    hide HomeOf, Agrees, LiveAt;
    HarmlessAgrees(segs, segs', memory, id);
    AgreeSameLive(segs', replay, memory, id);
  }

  /** Every other photo after the pass. */
  lemma OtherAfterPass(crc: Checksum, s: Store, n: nat, replay: Primary, id: string)
    requires Inv(crc, s) && Pending(s) && n <= |s.segs| && id != PendingId(s)
    requires Agrees(CompactedUpTo(crc, s.index.primary, s.segs, n, {}), replay, id)
    ensures LiveAt(replay, id) == LiveAt(After(s).primary, id)
  {
    InvParts(crc, s);
    OthersAgree(s, id);
    OtherIsSame(s, id);
    hide *;
    NothingSkipped(s.segs, n, id);
    SameLiveAfterPass(crc, s.segs, n, {}, s.index.primary, replay, id);
  }

  lemma OtherIsSame(s: Store, id: string)
    requires Pending(s) && id != PendingId(s) && LogInv(s)
    ensures LiveAt(s.index.primary, id) == LiveAt(After(s).primary, id)
  {
    hide HomeOf, Name;
  }

  /** A pass over the first `n` segments that consults the index while an update is pending
      keeps the photos of a full replay if and only if the pending record is behind the
      segments of the pass, or in the segment the index places the photo in already, or the
      photo was deleted before. */
  lemma PassWhilePendingIff(crc: Checksum, s: Store, n: nat)
    requires Inv(crc, s) && Pending(s) && n <= |s.segs|
    ensures var segs' := CompactedUpTo(crc, s.index.primary, s.segs, n, {});
            Live(PutAll(EMPTY, AllLocated(crc, segs', 0)).primary) == Live(After(s).primary) <==> Spared(s, n)
  {
    hide *;
    var segs' := CompactedUpTo(crc, s.index.primary, s.segs, n, {});
    var replay, memory := PutAll(EMPTY, AllLocated(crc, segs', 0)).primary, After(s).primary;
    forall id ensures id != PendingId(s) ==> LiveAt(replay, id) == LiveAt(memory, id) {
      FullReplayAgrees(crc, segs', id);
      if id != PendingId(s) { OtherAfterPass(crc, s, n, replay, id); }
    }
    FullReplayAgrees(crc, segs', PendingId(s));
    PendingAfterPass(crc, s, n, replay);
    LiveByPhoto(replay, memory);
  }

  // ------------------------------------------------------------------ snapshots

  lemma OneLoaded(crc: Checksum, s: Store, sn: Snapshot, id: string)
    requires LogInv(s) && Pending(s) && sn.Snapshot? && sn.segment < |s.segs| && Lists(sn.records, s.index.primary)
    ensures LiveAt(LoadFrom(crc, s.segs, sn).primary, id) ==
            if Unread(crc, s.segs, sn.segment, sn.offset, id) then LiveAt(s.index.primary, id)
            else LiveAt(After(s).primary, id)
  {
    hide *;
    CopyIs(s, sn.records);
    if Unread(crc, s.segs, sn.segment, sn.offset, id) {
      LoadedEntry(crc, s.segs, sn, id);
      SameEntrySameLive(LoadFrom(crc, s.segs, sn).primary, s.index.primary, id);
    } else {
      LogAgrees(s, id);
      ReadAgrees(crc, s.segs, sn, id);
      AgreeSameLive(s.segs, LoadFrom(crc, s.segs, sn).primary, After(s).primary, id);
    }
  }

  lemma SameEntrySameLive(a: Primary, b: Primary, id: string)
    requires (id in a <==> id in b) && (id in a ==> a[id] == b[id])
    ensures LiveAt(a, id) == LiveAt(b, id)
  {
  }

  /** A snapshot whose copy of the index was taken while an update is pending, at whatever
      watermark: a start-up from it shows the photos with that update if and only if the
      replay from the watermark reads the pending record, or the entry copied shows the
      same. */
  lemma CopyWhilePendingIff(crc: Checksum, s: Store, sn: Snapshot)
    requires Inv(crc, s) && Pending(s) && sn.Snapshot? && sn.segment < |s.segs| && Lists(sn.records, s.index.primary)
    ensures var id := PendingId(s);
            Live(LoadFrom(crc, s.segs, sn).primary) == Live(After(s).primary) <==>
            !Unread(crc, s.segs, sn.segment, sn.offset, id) ||
            LiveAt(s.index.primary, id) == LiveAt(After(s).primary, id)
  {
    hide *;
    InvParts(crc, s);
    var loaded, memory := LoadFrom(crc, s.segs, sn).primary, After(s).primary;
    forall id ensures id != PendingId(s) ==> LiveAt(loaded, id) == LiveAt(memory, id) {
      OneLoaded(crc, s, sn, id);
      if id != PendingId(s) { OtherIsSame(s, id); }
    }
    OneLoaded(crc, s, sn, PendingId(s));
    LiveByPhoto(loaded, memory);
  }

  // --------------------------------------------------------- what does not wait

  /** A pass and a snapshot go on while an update is pending: any other photo can be looked
      up, the pending one too once its record is behind the pass, and the index can be
      copied when the replay from the mark reads the pending record. */
  lemma PendingStopsLittle(crc: Checksum, s: Store, records: seq<PhotoMeta>)
    requires s.segs != [] && Pending(s)
    ensures s.pass.Checking? && s.pass.checked < |FirstSeen(s.pass.records)| &&
            (FirstSeen(s.pass.records)[s.pass.checked] == PendingId(s) ==>
               HomeOf(s.segs, PendingId(s)).At? && HomeOf(s.segs, PendingId(s)).segment >= s.pass.limit) ==>
              Enabled(crc, s, CheckPhoto)
    ensures s.mark.Placed? && s.mark.segment < |s.segs| && Lists(records, s.index.primary) &&
            Last(TailFrom(crc, s.segs, s.mark.segment, s.mark.offset), PendingId(s)).Some? ==>
              Enabled(crc, s, CopyIndex(records))
  {
    hide FirstSeen, HomeOf, Lists, TailFrom, Last, Unread, Keeps;
    if s.mark.Placed? && s.mark.segment < |s.segs| {
      TailReads(crc, s.segs, s.mark.segment, s.mark.offset, PendingId(s));
    }
  }
}
