/** What every step of the engine keeps. */
module EngineInvariant {
  import opened Basics
  import opened Models
  import opened Names
  import opened LogFormat
  import opened LogReader
  import opened LogReplay
  import opened Index
  import opened Compaction
  import opened Engine
  import opened LogQueries
  import opened TornTail

  // --------------------------------------------------------------- invariants

  /** The log and the index, with its pending update made, agree on every photo. */
  ghost predicate LogInv(s: Store) {
    && 1 <= |s.segs| <= MAX_COUNTER
    && Keyed(s.index.primary)
    && (s.op.Buried? ==> s.op.id in s.index.primary)
    && forall id :: Agrees(s.segs, After(s).primary, id)
  }

  /** The watermark is a record boundary, or its segment is closed. */
  ghost predicate AtBoundary(crc: Checksum, segs: seq<seq<Photo>>, w: nat, off: nat)
    requires w < |segs|
  {
    w < |segs| - 1 || IsBoundary(crc, segs[w], off)
  }

  /** The records copied at a watermark agree with the log on every photo that the
      replay behind the watermark does not read. */
  ghost predicate Covers(crc: Checksum, segs: seq<seq<Photo>>, w: nat, off: nat, records: seq<PhotoMeta>)
    requires w < |segs|
  {
    forall id :: Last(TailFrom(crc, segs, w, off), id).None? ==>
      Agrees(segs, PutAll(EMPTY, records).primary, id)
  }

  /** The copied records agree with the log on every photo whose last record is before
      the watermark's segment; this much no rewrite takes away. */
  ghost predicate Below(segs: seq<seq<Photo>>, w: nat, records: seq<PhotoMeta>) {
    forall id :: HomeOf(segs, id).At? && HomeOf(segs, id).segment < w ==>
      Agrees(segs, PutAll(EMPTY, records).primary, id)
  }

  /** They agree with the log on every deleted photo whose tombstone is in the watermark's
      segment and not read from the offset. */
  ghost predicate Buries(crc: Checksum, segs: seq<seq<Photo>>, w: nat, off: nat, records: seq<PhotoMeta>)
    requires w < |segs|
  {
    forall id | BuriedIn(segs, w, id) && !ReadsFrom(crc, segs[w], off, id) ::
      Agrees(segs, PutAll(EMPTY, records).primary, id)
  }

  ghost predicate SnapshotInv(crc: Checksum, segs: seq<seq<Photo>>, sn: Snapshot) {
    match sn
    case NoSnapshot => true
    case Snapshot(w, off, records, rewritten) =>
      && w < |segs| && rewritten < |segs|
      && if rewritten <= w then AtBoundary(crc, segs, w, off) && Covers(crc, segs, w, off, records)
         else Below(segs, w, records) && Buries(crc, segs, w, off, records)
  }

  ghost predicate MarkInv(crc: Checksum, segs: seq<seq<Photo>>, m: Mark) {
    match m
    case NoMark => true
    case Named(w, rewritten) => w < |segs| && rewritten < |segs|
    case Placed(w, off, rewritten) =>
      w < |segs| && rewritten < |segs| && (rewritten <= w ==> AtBoundary(crc, segs, w, off))
    case Copied(w, off, records, rewritten) => SnapshotInv(crc, segs, Snapshot(w, off, records, rewritten))
  }

  /** The pass has looked the photo up. */
  predicate Looked(pass: Pass, id: string)
    requires pass.Checking?
  {
    exists k :: 0 <= k < pass.checked && k < |FirstSeen(pass.records)| && FirstSeen(pass.records)[k] == id
  }

  /** But for segment `h`, the photo has no record behind the segment the index names. */
  ghost predicate NoneBehind(segs: seq<seq<Photo>>, primary: Primary, id: string, h: nat) {
    forall i: nat, u | LivesIn(primary, id, i) && i < u < |segs| && u != h :: !Has(segs[u], id)
  }

  /** But for segment `h`, a record in the segment the index names is the one it has. */
  ghost predicate SameThere(segs: seq<seq<Photo>>, primary: Primary, id: string, h: nat) {
    forall u: nat | u < |segs| && u != h && LivesIn(primary, id, u) && Has(segs[u], id) ::
      LastPhoto(segs[u], id) == Some(primary[id].photo)
  }

  /** The record of a live entry is in the segment the index names. */
  ghost predicate StillThere(segs: seq<seq<Photo>>, primary: Primary, id: string, h: nat) {
    IsLive(primary, id) ==>
      exists i: nat :: i < |segs| && LivesIn(primary, id, i) && (i == h || Has(segs[i], id))
  }

  /** What the stale index says of a photo whose new record is in segment `h`. */
  ghost predicate Stale(segs: seq<seq<Photo>>, primary: Primary, id: string, h: nat) {
    NoneBehind(segs, primary, id, h) && SameThere(segs, primary, id, h) && StillThere(segs, primary, id, h)
  }

  /** A record just appended stays in the log until the index is updated, a tombstone as
      well, and until then the index is behind by no more than that record. */
  ghost predicate PendingInv(s: Store) {
    Pending(s) ==>
      var id, home := PendingId(s), HomeOf(s.segs, PendingId(s));
      && home.At?
      && (s.pass.Checking? && s.pass.segment == home.segment && Looked(s.pass, id) ==> Has(s.pass.kept, id))
      && Stale(s.segs, s.index.primary, id, home.segment)
      && (id !in s.index.primary ==> !home.photo.tombstone)
      && (id in s.index.primary && s.index.primary[id].photo.tombstone ==> home.photo.tombstone)
  }

  /** Of the photos looked up so far those that the index places in the segment were kept,
      unless they end with a tombstone. */
  ghost predicate PlacedInv(s: Store) {
    s.pass.Checking? && s.pass.segment < |s.segs| ==>
      forall id | Looked(s.pass, id) && LivesIn(s.index.primary, id, s.pass.segment) ::
        (var last := LastPhoto(s.segs[s.pass.segment], id); last.Some? && !last.value.tombstone) ==>
          Has(s.pass.kept, id)
  }

  ghost predicate NoneBetween(segs: seq<seq<Photo>>, lo: nat, hi: nat, id: string)
    requires hi <= |segs|
  {
    forall u :: lo <= u < hi ==> !Has(segs[u], id)
  }

  /** A photo left in an already compacted segment has no record in a later segment of
      the pass: this is what makes the ascending order safe. */
  ghost predicate Clean(segs: seq<seq<Photo>>, next: nat, limit: nat, skipped: set<nat>)
    requires next <= limit <= |segs|
  {
    forall j, id :: 0 <= j < next && j !in skipped && Has(segs[j], id) ==> NoneBetween(segs, j + 1, limit, id)
  }

  ghost predicate LaterHas(segs: seq<seq<Photo>>, j: nat, id: string) {
    exists u :: j < u < |segs| && Has(segs[u], id)
  }

  /** What is known of the records kept so far and of the photos dropped so far. */
  ghost predicate KeptInv(segs: seq<seq<Photo>>, j: nat, limit: nat, ids: seq<string>, checked: nat, kept: seq<Photo>)
    requires j < limit <= |segs| && checked <= |ids|
  {
    && (forall p :: p in kept ==>
          !p.tombstone && LastPhoto(segs[j], p.photoId) == Some(p) && NoneBetween(segs, j + 1, limit, p.photoId))
    && (forall i :: 0 <= i < checked ==>
          || (exists p :: p in kept && p.photoId == ids[i])
          || (Has(segs[j], ids[i]) && LastPhoto(segs[j], ids[i]).value.tombstone)
          || LaterHas(segs, j, ids[i]))
  }

  ghost predicate PassInv(crc: Checksum, segs: seq<seq<Photo>>, pass: Pass) {
    match pass
    case Resting => true
    case Between(next, limit, skipped) => next <= limit < |segs| && Clean(segs, next, limit, skipped)
    case Checking(j, limit, records, checked, kept, skipped) =>
      && j < limit < |segs|
      && records == Located(crc, Name(j + 1), segs[j], 0)
      && checked <= |FirstSeen(records)|
      && Clean(segs, j, limit, skipped)
      && KeptInv(segs, j, limit, FirstSeen(records), checked, kept)
  }

  ghost predicate HaveBlobs(primary: Primary, blobs: set<string>) {
    forall id :: IsLive(primary, id) ==> primary[id].photo.contentHash in blobs
  }

  ghost predicate HaveHashes(ix: Entries) {
    forall id :: IsLive(ix.primary, id) ==> ix.primary[id].photo.contentHash in ix.hashes
  }

  ghost predicate ShareNothing(primary: Primary) {
    forall a, b | IsLive(primary, a) && IsLive(primary, b) ::
      primary[a].photo.contentHash == primary[b].photo.contentHash ==> a == b
  }

  ghost predicate NoneHas(primary: Primary, hash: string) {
    forall id :: IsLive(primary, id) ==> primary[id].photo.contentHash != hash
  }

  /** Blobs, hashes and live photos, also in the middle of an upload or a delete. */
  ghost predicate BlobInv(s: Store) {
    && HaveBlobs(After(s).primary, s.blobs)
    && HaveHashes(After(s))
    && ShareNothing(After(s).primary)
    && HaveBlobs(s.index.primary, s.blobs)
    && (s.op.Staged? || s.op.Committed? || s.op.Unlinking? ==> NoneHas(s.index.primary, s.op.hash))
    && (s.op.Committed? ==> s.op.hash in s.blobs)
    && (s.op.Appended? && s.op.m.photo.photoId in s.index.primary ==>
          s.op.m.photo.tombstone == s.index.primary[s.op.m.photo.photoId].photo.tombstone)
    && (s.op.Buried? ==> s.op.id in s.index.primary && Unshared(s.index.primary, s.op.id))
  }

  ghost predicate Inv(crc: Checksum, s: Store) {
    && LogInv(s)
    && SnapshotInv(crc, s.segs, s.snapshot)
    && MarkInv(crc, s.segs, s.mark)
    && PassInv(crc, s.segs, s.pass)
    && PendingInv(s)
    && PlacedInv(s)
    && (!s.sharedDelete ==> BlobInv(s))
  }

  // ---------------------------------------------------- appending and rotation

  lemma AppendAgrees(segs: seq<seq<Photo>>, p: Photo, primary: Primary, id: string)
    requires segs != [] && p.photoId != id && Agrees(segs, primary, id)
    ensures Agrees(AppendTo(segs, p), primary, id)
  {
    hide HomeOf, AppendTo;
    HomeAfterAppend(segs, p, id);
  }

  /** A record appended behind a watermark is read by the replay from it. */
  lemma TailAfterAppend(crc: Checksum, segs: seq<seq<Photo>>, p: Photo, w: nat, off: nat)
    requires w < |segs| && AtBoundary(crc, segs, w, off)
    ensures TailFrom(crc, AppendTo(segs, p), w, off) ==
            TailFrom(crc, segs, w, off) +
            [Place(p, Name(|segs|), |Lines(crc, segs[|segs| - 1])|, |Line(crc, p)|)]
  {
    hide Name, Lines, Line, ScanFrom, Located;
    var n := |segs| - 1;
    var segs' := AppendTo(segs, p);
    var m := Place(p, Name(|segs|), |Lines(crc, segs[n])|, |Line(crc, p)|);
    if w < n {
      AllLocatedAfterAppend(crc, segs, p, w + 1);
      Associate(ScanFrom(crc, Name(w + 1), Lines(crc, segs[w]), off), AllLocated(crc, segs, w + 1), [m]);
    } else {
      ScanFromAfterAppend(crc, Name(n + 1), segs[n], p, off);
      assert AllLocated(crc, segs, n + 1) == [] == AllLocated(crc, segs', n + 1);
    }
  }

  lemma StartAfterAppend(crc: Checksum, ps: seq<Photo>, p: Photo, i: nat)
    requires i <= |ps|
    ensures Start(crc, ps + [p], i) == Start(crc, ps, i)
  {
    assert (ps + [p])[..i] == ps[..i];
  }

  lemma ReadFromRecord(crc: Checksum, segment: string, ps: seq<Photo>, i: nat)
    requires i <= |ps|
    ensures ScanFrom(crc, segment, Lines(crc, ps), Start(crc, ps, i)) == Located(crc, segment, ps, 0)[i..]
  {
    hide Lines, Start, ScanFrom, Located;
    SplitLaw(crc, segment, ps, i);
  }

  lemma LocatedAfterAppend(crc: Checksum, segment: string, ps: seq<Photo>, p: Photo)
    ensures Located(crc, segment, ps + [p], 0) ==
            Located(crc, segment, ps, 0) + [Place(p, segment, |Lines(crc, ps)|, |Line(crc, p)|)]
  {
    hide Lines, Line, Located;
    LocatedConcat(crc, segment, ps, [p], 0);
    LocatedOne(crc, segment, p, |Lines(crc, ps)|);
  }

  lemma ScanFromAfterAppend(crc: Checksum, segment: string, ps: seq<Photo>, p: Photo, off: nat)
    requires IsBoundary(crc, ps, off)
    ensures ScanFrom(crc, segment, Lines(crc, ps + [p]), off) ==
            ScanFrom(crc, segment, Lines(crc, ps), off) + [Place(p, segment, |Lines(crc, ps)|, |Line(crc, p)|)]
  {
    var i :| 0 <= i <= |ps| && off == Start(crc, ps, i);
    hide *;
    StartAfterAppend(crc, ps, p, i);
    ReadFromRecord(crc, segment, ps, i);
    ReadFromRecord(crc, segment, ps + [p], i);
    LocatedAfterAppend(crc, segment, ps, p);
    SliceSnoc(Located(crc, segment, ps, 0), Place(p, segment, |Lines(crc, ps)|, |Line(crc, p)|), i);
  }

  lemma SliceSnoc<T>(q: seq<T>, x: T, i: nat)
    requires i <= |q|
    ensures (q + [x])[i..] == q[i..] + [x]
  {
  }

  lemma BoundaryAfterAppend(crc: Checksum, ps: seq<Photo>, p: Photo, off: nat)
    requires IsBoundary(crc, ps, off)
    ensures IsBoundary(crc, ps + [p], off)
  {
    hide Lines;
    var i :| 0 <= i <= |ps| && off == Start(crc, ps, i);
    assert (ps + [p])[..i] == ps[..i];
    assert off == Start(crc, ps + [p], i);
  }

  lemma CoversAfterAppend(
      crc: Checksum, segs: seq<seq<Photo>>, p: Photo, w: nat, off: nat, records: seq<PhotoMeta>)
    requires w < |segs| && AtBoundary(crc, segs, w, off) && Covers(crc, segs, w, off, records)
    ensures Covers(crc, AppendTo(segs, p), w, off, records)
  {
    hide TailFrom, Last, Agrees, PutAll, Line, Lines, AtBoundary;
    TailAfterAppend(crc, segs, p, w, off);
    var m := Place(p, Name(|segs|), |Lines(crc, segs[|segs| - 1])|, |Line(crc, p)|);
    var segs' := AppendTo(segs, p);
    forall id | Last(TailFrom(crc, segs', w, off), id).None?
      ensures Agrees(segs', PutAll(EMPTY, records).primary, id)
    {
      LastOfOneMore(TailFrom(crc, segs, w, off), m, id);
      AppendAgrees(segs, p, PutAll(EMPTY, records).primary, id);
    }
  }

  lemma BelowAfterAppend(segs: seq<seq<Photo>>, p: Photo, w: nat, records: seq<PhotoMeta>)
    requires w < |segs| && Below(segs, w, records)
    ensures Below(AppendTo(segs, p), w, records)
  {
    hide HomeOf, Agrees, PutAll, AppendTo;
    var segs' := AppendTo(segs, p);
    forall id | HomeOf(segs', id).At? && HomeOf(segs', id).segment < w
      ensures Agrees(segs', PutAll(EMPTY, records).primary, id)
    {
      HomeAfterAppend(segs, p, id);
      AppendAgrees(segs, p, PutAll(EMPTY, records).primary, id);
    }
  }

  lemma BuriesAfterAppend(
      crc: Checksum, segs: seq<seq<Photo>>, p: Photo, w: nat, off: nat, records: seq<PhotoMeta>)
    requires w + 1 < |segs| && Buries(crc, segs, w, off, records)
    ensures Buries(crc, AppendTo(segs, p), w, off, records)
  {
    var segs' := AppendTo(segs, p);
    assert segs'[w] == segs[w];
    hide HomeOf, Agrees, PutAll, AppendTo, ReadsFrom;
    forall id | BuriedIn(segs', w, id) && !ReadsFrom(crc, segs'[w], off, id)
      ensures Agrees(segs', PutAll(EMPTY, records).primary, id)
    {
      HomeAfterAppend(segs, p, id);
      AppendAgrees(segs, p, PutAll(EMPTY, records).primary, id);
    }
  }

  lemma SnapshotAfterAppend(crc: Checksum, segs: seq<seq<Photo>>, p: Photo, sn: Snapshot)
    requires segs != [] && SnapshotInv(crc, segs, sn)
    ensures SnapshotInv(crc, AppendTo(segs, p), sn)
  {
    hide Covers, Below, Buries, Lines, Line;
    if sn.Snapshot? {
      var w, off := sn.segment, sn.offset;
      if sn.rewritten <= w {
        if w == |segs| - 1 { BoundaryAfterAppend(crc, segs[w], p, off); }
        CoversAfterAppend(crc, segs, p, w, off, sn.records);
      } else {
        BelowAfterAppend(segs, p, w, sn.records);
        BuriesAfterAppend(crc, segs, p, w, off, sn.records);
      }
    }
  }

  lemma LastOfOneMore(ms: seq<PhotoMeta>, m: PhotoMeta, id: string)
    ensures Last(ms + [m], id) == if m.photo.photoId == id then Some(m) else Last(ms, id)
  {
    assert (ms + [m])[..|ms + [m]| - 1] == ms;
  }

  lemma TailAfterRotate(crc: Checksum, segs: seq<seq<Photo>>, w: nat, off: nat)
    requires w < |segs|
    ensures TailFrom(crc, segs + [[]], w, off) == TailFrom(crc, segs, w, off)
  {
    hide ScanFrom, Lines, AllLocated;
    AllLocatedAfterRotate(crc, segs, w + 1);
  }

  lemma RotateAgrees(segs: seq<seq<Photo>>, primary: Primary, id: string)
    requires Agrees(segs, primary, id)
    ensures Agrees(segs + [[]], primary, id)
  {
    hide HomeOf;
    HomeAfterRotate(segs, id);
  }

  lemma CoversAfterRotate(crc: Checksum, segs: seq<seq<Photo>>, w: nat, off: nat, records: seq<PhotoMeta>)
    requires w < |segs| && Covers(crc, segs, w, off, records)
    ensures Covers(crc, segs + [[]], w, off, records)
  {
    hide TailFrom, Last, Agrees, PutAll, Lines;
    TailAfterRotate(crc, segs, w, off);
    forall id | Last(TailFrom(crc, segs + [[]], w, off), id).None?
      ensures Agrees(segs + [[]], PutAll(EMPTY, records).primary, id)
    {
      RotateAgrees(segs, PutAll(EMPTY, records).primary, id);
    }
  }

  lemma BelowAfterRotate(segs: seq<seq<Photo>>, w: nat, records: seq<PhotoMeta>)
    requires Below(segs, w, records)
    ensures Below(segs + [[]], w, records)
  {
    hide HomeOf, Agrees, PutAll;
    var segs' := segs + [[]];
    forall id | HomeOf(segs', id).At? && HomeOf(segs', id).segment < w
      ensures Agrees(segs', PutAll(EMPTY, records).primary, id)
    {
      HomeAfterRotate(segs, id);
      RotateAgrees(segs, PutAll(EMPTY, records).primary, id);
    }
  }

  lemma BuriesAfterRotate(crc: Checksum, segs: seq<seq<Photo>>, w: nat, off: nat, records: seq<PhotoMeta>)
    requires w < |segs| && Buries(crc, segs, w, off, records)
    ensures Buries(crc, segs + [[]], w, off, records)
  {
    hide HomeOf, Agrees, PutAll, ReadsFrom;
    var segs' := segs + [[]];
    forall id | BuriedIn(segs', w, id) && !ReadsFrom(crc, segs'[w], off, id)
      ensures Agrees(segs', PutAll(EMPTY, records).primary, id)
    {
      HomeAfterRotate(segs, id);
      RotateAgrees(segs, PutAll(EMPTY, records).primary, id);
    }
  }

  lemma SnapshotAfterRotate(crc: Checksum, segs: seq<seq<Photo>>, sn: Snapshot)
    requires SnapshotInv(crc, segs, sn)
    ensures SnapshotInv(crc, segs + [[]], sn)
  {
    hide Covers, Below, Buries, Lines;
    if sn.Snapshot? {
      if sn.rewritten <= sn.segment {
        CoversAfterRotate(crc, segs, sn.segment, sn.offset, sn.records);
      } else {
        BelowAfterRotate(segs, sn.segment, sn.records);
        BuriesAfterRotate(crc, segs, sn.segment, sn.offset, sn.records);
      }
    }
  }

  /** Segments below the pass limit are the same, and later ones keep their photos. */
  ghost predicate Grows(segs: seq<seq<Photo>>, segs': seq<seq<Photo>>, limit: nat) {
    && limit <= |segs| <= |segs'|
    && (forall u :: 0 <= u < limit ==> segs'[u] == segs[u])
    && (forall u, id :: 0 <= u < |segs| && Has(segs[u], id) ==> Has(segs'[u], id))
  }

  lemma PassAfterGrowth(crc: Checksum, segs: seq<seq<Photo>>, segs': seq<seq<Photo>>, pass: Pass)
    requires PassInv(crc, segs, pass)
    requires !pass.Resting? ==> Grows(segs, segs', pass.limit)
    ensures PassInv(crc, segs', pass)
  {
    hide Has, Located, FirstSeen, Name;
    match pass
    case Resting =>
    case Between(next, limit, skipped) => CleanAfterGrowth(segs, segs', next, limit, skipped);
    case Checking(j, limit, records, checked, kept, skipped) =>
      CleanAfterGrowth(segs, segs', j, limit, skipped);
      KeptAfterGrowth(segs, segs', j, limit, FirstSeen(records), checked, kept);
  }

  lemma CleanAfterGrowth(segs: seq<seq<Photo>>, segs': seq<seq<Photo>>, next: nat, limit: nat, skipped: set<nat>)
    requires next <= limit && Grows(segs, segs', limit) && Clean(segs, next, limit, skipped)
    ensures Clean(segs', next, limit, skipped)
  {
    hide Has;
    forall j, id | 0 <= j < next && j !in skipped && Has(segs'[j], id) ensures NoneBetween(segs', j + 1, limit, id) {
      assert Has(segs[j], id);
      assert NoneBetween(segs, j + 1, limit, id);
    }
  }

  lemma KeptAfterGrowth(
      segs: seq<seq<Photo>>, segs': seq<seq<Photo>>, j: nat, limit: nat, ids: seq<string>, checked: nat,
        kept: seq<Photo>)
    requires j < limit && Grows(segs, segs', limit) && checked <= |ids|
    requires KeptInv(segs, j, limit, ids, checked, kept)
    ensures KeptInv(segs', j, limit, ids, checked, kept)
  {
    assert segs'[j] == segs[j];
    forall p | p in kept ensures NoneBetween(segs', j + 1, limit, p.photoId) {
      assert NoneBetween(segs, j + 1, limit, p.photoId);
    }
    forall i | 0 <= i < checked && LaterHas(segs, j, ids[i]) ensures LaterHas(segs', j, ids[i]) {
      var u :| j < u < |segs| && Has(segs[u], ids[i]);
      assert Has(segs'[u], ids[i]);
    }
  }

  lemma AppendGrows(segs: seq<seq<Photo>>, p: Photo, limit: nat)
    requires segs != [] && limit <= |segs| - 1
    ensures Grows(segs, AppendTo(segs, p), limit)
  {
    forall u, id | 0 <= u < |segs| && Has(segs[u], id) ensures Has(AppendTo(segs, p)[u], id) {
      LastPhotoSnoc(segs[|segs| - 1], p, id);
    }
  }

  // ----------------------------------------------------- rewriting a segment

  /** A rewrite that moves no home, except that a tombstone may vanish with every other
      record of its photo. */
  ghost predicate Harmless(segs: seq<seq<Photo>>, segs': seq<seq<Photo>>, id: string) {
    || HomeOf(segs', id) == HomeOf(segs, id)
    || (HomeOf(segs, id).At? && HomeOf(segs, id).photo.tombstone && HomeOf(segs', id).Nowhere?)
  }

  lemma HarmlessAgrees(segs: seq<seq<Photo>>, segs': seq<seq<Photo>>, primary: Primary, id: string)
    requires Harmless(segs, segs', id) && Agrees(segs, primary, id)
    ensures Agrees(segs', primary, id)
  {
    hide HomeOf, Name;
  }

  lemma {:induction false} HomeOfPrefix(segs: seq<seq<Photo>>, j: nat, id: string)
    requires j <= |segs| && NoneFrom(segs, j, id)
    ensures HomeOf(segs, id) == HomeOf(segs[..j], id)
    decreases |segs|
  {
    hide LastPhoto;
    var n := |segs| - 1;
    if j == |segs| {
      assert segs[..j] == segs;
    } else {
      assert !Has(segs[n], id);
      forall u | j <= u < n ensures !Has(segs[..n][u], id) {
        assert segs[..n][u] == segs[u];
      }
      assert segs[..n][..j] == segs[..j];
      HomeOfPrefix(segs[..n], j, id);
    }
  }

  lemma HomeFromLast(segs: seq<seq<Photo>>, j: nat, id: string)
    requires j < |segs| && NoneFrom(segs, j + 1, id)
    ensures HomeOf(segs, id) == if Has(segs[j], id) then At(j, LastPhoto(segs[j], id).value) else HomeOf(segs[..j], id)
  {
    hide LastPhoto;
    HomeOfPrefix(segs, j + 1, id);
    assert segs[..j + 1][..j] == segs[..j] && segs[..j + 1][j] == segs[j];
  }

  /** How replacing the records of segment `j` moves the home of a photo. */
  lemma HomeAfterRewrite(segs: seq<seq<Photo>>, j: nat, ps: seq<Photo>, id: string)
    requires j < |segs|
    ensures LaterHas(segs, j, id) ==> HomeOf(segs[j := ps], id) == HomeOf(segs, id)
    ensures !LaterHas(segs, j, id) ==>
              && HomeOf(segs, id) ==
                (if Has(segs[j], id) then At(j, LastPhoto(segs[j], id).value) else HomeOf(segs[..j], id))
              && HomeOf(segs[j := ps], id) ==
                (if Has(ps, id) then At(j, LastPhoto(ps, id).value) else HomeOf(segs[..j], id))
  {
    hide LastPhoto, HomeOf;
    var segs' := segs[j := ps];
    if LaterHas(segs, j, id) {
      HomeSpec(segs, id);
      var u :| j < u < |segs| && Has(segs[u], id);
      var h := HomeOf(segs, id);
      assert h.At? && j < h.segment;
      HomeIs(segs', id, h.segment);
    } else {
      HomeFromLast(segs, j, id);
      HomeFromLast(segs', j, id);
      assert segs'[..j] == segs[..j];
    }
  }

  lemma LastOfKept(
      segs: seq<seq<Photo>>, j: nat, limit: nat, ids: seq<string>, checked: nat, kept: seq<Photo>, id: string)
    requires j < limit <= |segs| && checked <= |ids| && KeptInv(segs, j, limit, ids, checked, kept)
    ensures LastPhoto(kept, id).Some? ==>
              LastPhoto(kept, id) == LastPhoto(segs[j], id) && !LastPhoto(kept, id).value.tombstone &&
              NoneBetween(segs, j + 1, limit, id)
    ensures LastPhoto(kept, id).None? ==> forall p :: p in kept ==> p.photoId != id
  {
    LastPhotoIsMember(kept, id);
  }

  lemma CleanApplies(
      segs: seq<seq<Photo>>, next: nat, limit: nat, skipped: set<nat>, h: nat, u: nat, id: string)
    requires h < next <= limit <= |segs| && h < u < limit && h !in skipped
    requires Clean(segs, next, limit, skipped) && Has(segs[u], id)
    ensures !Has(segs[h], id)
  {
    hide Has;
  }

  lemma NothingBefore(segs: seq<seq<Photo>>, j: nat, limit: nat, skipped: set<nat>, id: string)
    requires j < limit <= |segs| && Clean(segs, j, limit, skipped) && Has(segs[j], id)
    requires forall u: nat | u in skipped && u < j :: !Has(segs[u], id)
    ensures HomeOf(segs[..j], id) == Nowhere
  {
    forall u: nat | u < j ensures !Has(segs[..j][u], id) {
      assert segs[..j][u] == segs[u];
      if u !in skipped { CleanApplies(segs, j, limit, skipped, u, j, id); }
    }
    HomeIsNowhere(segs[..j], id);
  }

  lemma IdsOfSegment(crc: Checksum, segment: string, ps: seq<Photo>, id: string)
    ensures id in FirstSeen(Located(crc, segment, ps, 0)) <==> Has(ps, id)
  {
    hide Located;
    FirstSeenSpec(Located(crc, segment, ps, 0));
    LastLocated(crc, segment, ps, 0, id);
  }

  /** Renaming the compacted segment into place is harmless for every photo. */
  lemma RenameIsHarmless(crc: Checksum, s: Store, id: string)
    requires PassInv(crc, s.segs, s.pass)
    requires s.pass.Checking? && s.pass.checked == |FirstSeen(s.pass.records)| && RenameSound(s)
    ensures Harmless(s.segs, s.segs[s.pass.segment := s.pass.kept], id)
  {
    hide Located, FirstSeen, Name, HomeOf, LastPhoto;
    var Checking(j, limit, records, checked, kept, skipped) := s.pass;
    var ids := FirstSeen(records);
    HomeAfterRewrite(s.segs, j, kept, id);
    IdsOfSegment(crc, Name(j + 1), s.segs[j], id);
    LastOfKept(s.segs, j, limit, ids, checked, kept, id);
    if Has(s.segs[j], id) && !LaterHas(s.segs, j, id) {
      var i :| 0 <= i < |ids| && ids[i] == id;
      if LastPhoto(kept, id).None? {
        assert LastPhoto(s.segs[j], id).value.tombstone;
        assert BuriedIn(s.segs, j, id);
        forall u: nat | u in skipped && u < j ensures !Has(s.segs[u], id) {
          assert u in s.pass.skipped && u < |s.segs|;
        }
        NothingBefore(s.segs, j, limit, skipped, id);
      }
    }
  }

  lemma CleanAfterRename(
      segs: seq<seq<Photo>>, j: nat, limit: nat, ids: seq<string>, checked: nat, kept: seq<Photo>, skipped: set<nat>)
    requires j < limit <= |segs| && checked <= |ids|
    requires Clean(segs, j, limit, skipped) && KeptInv(segs, j, limit, ids, checked, kept)
    ensures Clean(segs[j := kept], j + 1, limit, skipped)
  {
    hide LastPhoto;
    var segs' := segs[j := kept];
    forall h, id | 0 <= h < j + 1 && h !in skipped && Has(segs'[h], id) ensures NoneBetween(segs', h + 1, limit, id) {
      LastOfKept(segs, j, limit, ids, checked, kept, id);
      if h < j {
        assert Has(segs[h], id);
        assert NoneBetween(segs, h + 1, limit, id);
        assert !Has(segs[j], id);
      }
    }
  }

  lemma TailAfterRename(crc: Checksum, segs: seq<seq<Photo>>, j: nat, ps: seq<Photo>, w: nat, off: nat)
    requires j < w < |segs|
    ensures TailFrom(crc, segs[j := ps], w, off) == TailFrom(crc, segs, w, off)
  {
    hide ScanFrom, Lines, AllLocated;
    AllLocatedOnlyReads(crc, segs[j := ps], segs, w + 1);
  }

  lemma RenameAgrees(crc: Checksum, s: Store, primary: Primary, id: string)
    requires PassInv(crc, s.segs, s.pass)
    requires s.pass.Checking? && s.pass.checked == |FirstSeen(s.pass.records)| && RenameSound(s)
    requires Agrees(s.segs, primary, id)
    ensures s.pass.segment < |s.segs|
    ensures Agrees(s.segs[s.pass.segment := s.pass.kept], primary, id)
  {
    assert s.pass.segment < |s.segs|;
    hide *;
    RenameIsHarmless(crc, s, id);
    HarmlessAgrees(s.segs, s.segs[s.pass.segment := s.pass.kept], primary, id);
  }

  lemma CoversAfterRename(crc: Checksum, s: Store, w: nat, off: nat, records: seq<PhotoMeta>)
    requires s.pass.Checking? && s.pass.segment < w < |s.segs|
    requires PassInv(crc, s.segs, s.pass) && s.pass.checked == |FirstSeen(s.pass.records)| && RenameSound(s)
    requires Covers(crc, s.segs, w, off, records)
    ensures Covers(crc, s.segs[s.pass.segment := s.pass.kept], w, off, records)
  {
    hide TailFrom, Last, Agrees, PutAll, PassInv, FirstSeen, RenameSound;
    var segs' := s.segs[s.pass.segment := s.pass.kept];
    TailAfterRename(crc, s.segs, s.pass.segment, s.pass.kept, w, off);
    forall id | Last(TailFrom(crc, segs', w, off), id).None?
      ensures Agrees(segs', PutAll(EMPTY, records).primary, id)
    {
      RenameAgrees(crc, s, PutAll(EMPTY, records).primary, id);
    }
  }

  /** What is covered at a watermark leaves these two, which later rewrites do not take
      away. */
  lemma CoversLeaves(crc: Checksum, segs: seq<seq<Photo>>, w: nat, off: nat, records: seq<PhotoMeta>)
    requires w < |segs| && Covers(crc, segs, w, off, records)
    ensures Below(segs, w, records) && Buries(crc, segs, w, off, records)
  {
    hide HomeOf, Agrees, PutAll, TailFrom, Last, ReadsFrom;
    forall id | HomeOf(segs, id).At? && HomeOf(segs, id).segment <= w
      ensures Unread(crc, segs, w, off, id) ==> Agrees(segs, PutAll(EMPTY, records).primary, id)
    {
      TailReads(crc, segs, w, off, id);
    }
  }

  lemma BelowAfterRename(crc: Checksum, s: Store, w: nat, records: seq<PhotoMeta>)
    requires PassInv(crc, s.segs, s.pass)
    requires s.pass.Checking? && s.pass.checked == |FirstSeen(s.pass.records)| && RenameSound(s)
    requires Below(s.segs, w, records)
    ensures s.pass.segment < |s.segs| && Below(s.segs[s.pass.segment := s.pass.kept], w, records)
  {
    assert s.pass.segment < |s.segs|;
    hide HomeOf, Agrees, PutAll, PassInv, FirstSeen, RenameSound;
    var segs' := s.segs[s.pass.segment := s.pass.kept];
    forall id | HomeOf(segs', id).At? && HomeOf(segs', id).segment < w
      ensures Agrees(segs', PutAll(EMPTY, records).primary, id)
    {
      RenameIsHarmless(crc, s, id);
      RenameAgrees(crc, s, PutAll(EMPTY, records).primary, id);
    }
  }

  /** What is renamed into place holds no tombstone. */
  lemma RenamedIsLive(crc: Checksum, s: Store, id: string)
    requires PassInv(crc, s.segs, s.pass) && s.pass.Checking?
    ensures s.pass.segment < |s.segs|
    ensures var home := HomeOf(s.segs[s.pass.segment := s.pass.kept], id);
            home.At? && home.segment == s.pass.segment ==> !home.photo.tombstone
  {
    var Checking(j, limit, records, checked, kept, _) := s.pass;
    hide HomeOf, LastPhoto, Clean, FirstSeen, Located, Name;
    HomeSpec(s.segs[j := kept], id);
    LastOfKept(s.segs, j, limit, FirstSeen(records), checked, kept, id);
  }

  lemma BuriesAfterRename(crc: Checksum, s: Store, w: nat, off: nat, records: seq<PhotoMeta>)
    requires PassInv(crc, s.segs, s.pass)
    requires s.pass.Checking? && s.pass.checked == |FirstSeen(s.pass.records)| && RenameSound(s)
    requires w < |s.segs| && Buries(crc, s.segs, w, off, records)
    ensures s.pass.segment < |s.segs| && Buries(crc, s.segs[s.pass.segment := s.pass.kept], w, off, records)
  {
    assert s.pass.segment < |s.segs|;
    hide HomeOf, Agrees, PutAll, PassInv, FirstSeen, RenameSound, ReadsFrom;
    var segs' := s.segs[s.pass.segment := s.pass.kept];
    forall id | BuriedIn(segs', w, id) && !ReadsFrom(crc, segs'[w], off, id)
      ensures Agrees(segs', PutAll(EMPTY, records).primary, id)
    {
      RenamedIsLive(crc, s, id);
      RenameIsHarmless(crc, s, id);
      RenameAgrees(crc, s, PutAll(EMPTY, records).primary, id);
    }
  }

  lemma SnapshotAfterRename(crc: Checksum, s: Store, sn: Snapshot)
    requires SnapshotInv(crc, s.segs, sn)
    requires PassInv(crc, s.segs, s.pass)
    requires s.pass.Checking? && s.pass.checked == |FirstSeen(s.pass.records)| && RenameSound(s)
    ensures SnapshotInv(crc, s.segs[s.pass.segment := s.pass.kept], BumpSnapshot(sn, s.pass.segment))
  {
    assert s.pass.segment + 1 < |s.segs|;
    hide Covers, Below, Buries, PassInv, FirstSeen, IsBoundary, RenameSound;
    if sn.Snapshot? {
      var w := sn.segment;
      if BumpSnapshot(sn, s.pass.segment).rewritten <= w {
        CoversAfterRename(crc, s, w, sn.offset, sn.records);
      } else {
        if sn.rewritten <= w { CoversLeaves(crc, s.segs, w, sn.offset, sn.records); }
        BelowAfterRename(crc, s, w, sn.records);
        BuriesAfterRename(crc, s, w, sn.offset, sn.records);
      }
    }
  }

  lemma AllLooked(crc: Checksum, s: Store, id: string)
    requires PassInv(crc, s.segs, s.pass)
    requires s.pass.Checking? && s.pass.checked == |FirstSeen(s.pass.records)|
    ensures s.pass.segment < |s.segs|
    ensures Has(s.segs[s.pass.segment], id) ==> Looked(s.pass, id)
  {
    hide Located, Name, FirstSeen, KeptInv, Clean, LastPhoto;
    IdsOfSegment(crc, Name(s.pass.segment + 1), s.segs[s.pass.segment], id);
  }

  /** A rename leaves the pending record in place: its segment is another, or it was kept. */
  lemma PendingAfterRename(crc: Checksum, s: Store)
    requires PendingInv(s) && Pending(s) && PassInv(crc, s.segs, s.pass)
    requires s.pass.Checking? && s.pass.checked == |FirstSeen(s.pass.records)|
    ensures s.pass.segment < |s.segs|
    ensures HomeOf(s.segs[s.pass.segment := s.pass.kept], PendingId(s)) == HomeOf(s.segs, PendingId(s))
  {
    var id := PendingId(s);
    AllLooked(crc, s, id);
    hide Located, Name, HomeOf, LastPhoto, FirstSeen, Stale, Looked;
    var Checking(j, limit, records, checked, kept, _) := s.pass;
    HomeSpec(s.segs, id);
    HomeAfterRewrite(s.segs, j, kept, id);
    LastOfKept(s.segs, j, limit, FirstSeen(records), checked, kept, id);
  }

  lemma StaleAfterRename(crc: Checksum, s: Store, id: string, h: nat)
    requires PassInv(crc, s.segs, s.pass) && PlacedInv(s)
    requires s.pass.Checking? && s.pass.checked == |FirstSeen(s.pass.records)|
    requires Stale(s.segs, s.index.primary, id, h)
    ensures s.pass.segment < |s.segs|
    ensures Stale(s.segs[s.pass.segment := s.pass.kept], s.index.primary, id, h)
  {
    AllLooked(crc, s, id);
    var j, kept, primary := s.pass.segment, s.pass.kept, s.index.primary;
    KeptIsLast(crc, s, id);
    hide PassInv, LastPhoto, FirstSeen, Looked, LivesIn;
    if j != h && LivesIn(primary, id, j) && IsLive(primary, id) && Has(s.segs[j], id) {
      assert LastPhoto(s.segs[j], id) == Some(primary[id].photo);
      assert Has(kept, id);
    }
    StaleAfterRewrite(s.segs, j, kept, primary, id, h);
  }

  lemma KeptIsLast(crc: Checksum, s: Store, id: string)
    requires PassInv(crc, s.segs, s.pass) && s.pass.Checking?
    ensures s.pass.segment < |s.segs|
    ensures Has(s.pass.kept, id) ==> LastPhoto(s.pass.kept, id) == LastPhoto(s.segs[s.pass.segment], id)
  {
    var Checking(j, limit, records, checked, kept, _) := s.pass;
    hide Located, Name, FirstSeen, Clean, LastPhoto;
    LastOfKept(s.segs, j, limit, FirstSeen(records), checked, kept, id);
  }

  lemma StaleAfterRewrite(
      segs: seq<seq<Photo>>, j: nat, kept: seq<Photo>, primary: Primary, id: string, h: nat)
    requires j < |segs| && Stale(segs, primary, id, h)
    requires Has(kept, id) ==> LastPhoto(kept, id) == LastPhoto(segs[j], id)
    requires j != h && LivesIn(primary, id, j) && IsLive(primary, id) && Has(segs[j], id) ==> Has(kept, id)
    ensures Stale(segs[j := kept], primary, id, h)
  {
    hide LastPhoto, LivesIn;
    var segs' := segs[j := kept];
    assert forall u: nat | u < |segs| && Has(segs'[u], id) ::
        Has(segs[u], id) && LastPhoto(segs'[u], id) == LastPhoto(segs[u], id);
    if IsLive(primary, id) {
      var i: nat :| i < |segs| && LivesIn(primary, id, i) && (i == h || Has(segs[i], id));
      assert i == h || Has(segs'[i], id);
    }
  }
}
