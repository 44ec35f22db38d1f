/** The duplicate check in every reachable state, after restarts as well: a content hash that
    the index knows leads to a photo with that content. */
module Deduplication {
  import opened Models
  import opened Names
  import opened LogFormat
  import opened LogReader
  import opened LogReplay
  import opened Index
  import opened Compaction
  import opened Engine
  import opened EngineInvariant
  import opened EngineTheorems
  import opened Recovery

  predicate InSegments(segs: seq<seq<Photo>>, p: Photo) {
    exists j :: 0 <= j < |segs| && p in segs[j]
  }

  predicate InRecords(ms: seq<PhotoMeta>, p: Photo) {
    exists i :: 0 <= i < |ms| && ms[i].photo == p
  }

  predicate InIndex(primary: Primary, p: Photo) {
    p.photoId in primary && primary[p.photoId].photo == p
  }

  /** The record is in the log, the index, the snapshot or the copy for the next one. */
  predicate Known(s: Store, p: Photo) {
    || InSegments(s.segs, p)
    || InIndex(s.index.primary, p)
    || (s.snapshot.Snapshot? && InRecords(s.snapshot.records, p))
    || (s.mark.Copied? && InRecords(s.mark.records, p))
  }

  /** All records of one photo have the same content. */
  ghost predicate ContentInv(s: Store) {
    forall p, q | Known(s, p) && Known(s, q) && p.photoId == q.photoId :: p.contentHash == q.contentHash
  }

  /** A hash in the hash index leads to an entry with that content. */
  ghost predicate HashesPoint(ix: Entries) {
    forall h | h in ix.hashes :: ix.hashes[h] in ix.primary && ix.primary[ix.hashes[h]].photo.contentHash == h
  }

  // ------------------------------------------------------------ one content

  /** Nothing is known that was not known before, but for records with the identifier and
      content of one that was. */
  ghost predicate Backed(s: Store, p: Photo) {
    exists q :: Known(s, q) && q.photoId == p.photoId && q.contentHash == p.contentHash
  }

  lemma BackedKeepsContent(s: Store, s': Store)
    requires ContentInv(s) && forall p | Known(s', p) :: Backed(s, p)
    ensures ContentInv(s')
  {
    hide Known;
    forall p, q | Known(s', p) && Known(s', q) && p.photoId == q.photoId ensures p.contentHash == q.contentHash {
      assert Backed(s, p) && Backed(s, q);
    }
  }

  lemma KnownIsBacked(s: Store, p: Photo)
    requires Known(s, p)
    ensures Backed(s, p)
  {
    hide Known;
  }

  lemma FreshIsUnknown(s: Store, id: string, p: Photo)
    requires Fresh(s, id) && Known(s, p)
    ensures p.photoId != id
  {
    hide LastPhoto;
    if InSegments(s.segs, p) {
      var j :| 0 <= j < |s.segs| && p in s.segs[j];
      LastPhotoIsMember(s.segs[j], id);
    }
  }

  lemma InSegmentsAfterAppend(segs: seq<seq<Photo>>, p: Photo, q: Photo)
    requires segs != [] && InSegments(AppendTo(segs, p), q)
    ensures InSegments(segs, q) || q == p
  {
    var j :| 0 <= j < |segs| && q in AppendTo(segs, p)[j];
    if q != p { assert q in segs[j]; }
  }

  lemma ContentAfterAppend(crc: Checksum, s: Store, step: Step)
    requires Takes(crc, s, step) && IsAppend(step) && ContentInv(s)
    ensures ContentInv(Do(crc, s, step))
  {
    AppendStep(crc, s, step);
    WrittenFrom(crc, s, step);
    var s', p := Do(crc, s, step), Written(s, step);
    hide Do, Enabled, Inv, Written, AppendTo, InSegments, InIndex, InRecords, Fresh;
    forall q | Known(s', q) ensures Known(s, q) || q == p {
      if InSegments(s'.segs, q) { InSegmentsAfterAppend(s.segs, p, q); }
    }
    if step.AppendUpload? {
      forall a, b | Known(s', a) && Known(s', b) && a.photoId == b.photoId ensures a.contentHash == b.contentHash {
        if a != b && Known(s, a) && a.photoId == p.photoId { FreshIsUnknown(s, p.photoId, a); }
        if a != b && Known(s, b) && b.photoId == p.photoId { FreshIsUnknown(s, p.photoId, b); }
      }
    } else {
      forall q | Known(s', q) ensures Backed(s, q) {
        if q == p {
          var before := s.index.primary[p.photoId].photo;
          assert Known(s, before);
        } else {
          KnownIsBacked(s, q);
        }
      }
      BackedKeepsContent(s, s');
    }
  }

  /** An uploaded record is of a fresh photo, any other of one in the index. */
  lemma WrittenFrom(crc: Checksum, s: Store, step: Step)
    requires Takes(crc, s, step) && IsAppend(step)
    ensures var p := Written(s, step);
            if step.AppendUpload? then Fresh(s, p.photoId)
            else
              && p.photoId in s.index.primary && InIndex(s.index.primary, s.index.primary[p.photoId].photo)
              && s.index.primary[p.photoId].photo.photoId == p.photoId
              && s.index.primary[p.photoId].photo.contentHash == p.contentHash
  {
    assert Keyed(s.index.primary);
    hide Name, Lines, Line, Agrees, SnapshotInv, MarkInv, PassInv, BlobInv, Unshared, AppendTo, Fresh;
  }

  // --------------------------------------------------------------- what is read

  lemma {:induction false} LocatedMembers(crc: Checksum, segment: string, ps: seq<Photo>, base: nat, i: nat)
    requires i < |ps|
    ensures Located(crc, segment, ps, base)[i].photo in ps
  {
    hide Line;
    LocatedAt(crc, segment, ps, base, i);
  }

  lemma {:induction false} AllLocatedMembers(crc: Checksum, segs: seq<seq<Photo>>, j: nat, m: PhotoMeta)
    requires m in AllLocated(crc, segs, j)
    ensures InSegments(segs, m.photo)
    decreases |segs| - j
  {
    hide Located, Name;
    var head := Located(crc, Name(j + 1), segs[j], 0);
    if m in head {
      var i :| 0 <= i < |head| && head[i] == m;
      LocatedMembers(crc, Name(j + 1), segs[j], 0, i);
    } else {
      AllLocatedMembers(crc, segs, j + 1, m);
    }
  }

  lemma TailMembers(crc: Checksum, segs: seq<seq<Photo>>, w: nat, off: nat, m: PhotoMeta)
    requires w < |segs| && m in TailFrom(crc, segs, w, off)
    ensures InSegments(segs, m.photo)
  {
    hide Located, Name, ScanFrom, Lines, AllLocated, SeeksTo, InSegments;
    var segment := Name(w + 1);
    var head := ScanFrom(crc, segment, Lines(crc, segs[w]), off);
    SeekLaw(crc, segment, segs[w], off);
    if m in head {
      var i :| 0 <= i <= |segs[w]| && SeeksTo(crc, segs[w], off, i);
      var k :| 0 <= k < |head| && head[k] == m;
      assert head[k] == Located(crc, segment, segs[w], 0)[i + k];
      LocatedMembers(crc, segment, segs[w], 0, i + k);
      InThisSegment(segs, w, m.photo);
    } else {
      AllLocatedMembers(crc, segs, w + 1, m);
    }
  }

  lemma InThisSegment(segs: seq<seq<Photo>>, j: nat, p: Photo)
    requires j < |segs| && p in segs[j]
    ensures InSegments(segs, p)
  {
  }

  lemma MemberInRecords(ms: seq<PhotoMeta>, m: PhotoMeta)
    requires m in ms
    ensures InRecords(ms, m.photo)
  {
    var i :| 0 <= i < |ms| && ms[i] == m;
  }

  /** What start-up puts, record by record. */
  function Loaded(crc: Checksum, segs: seq<seq<Photo>>, sn: Snapshot): seq<PhotoMeta>
    requires sn.Snapshot? ==> sn.segment < |segs|
  {
    match sn
    case NoSnapshot => AllLocated(crc, segs, 0)
    case Snapshot(w, off, records, _) => records + TailFrom(crc, segs, w, off)
  }

  lemma LoadIsPutAll(crc: Checksum, segs: seq<seq<Photo>>, sn: Snapshot)
    requires sn.Snapshot? ==> sn.segment < |segs|
    ensures LoadFrom(crc, segs, sn) == PutAll(EMPTY, Loaded(crc, segs, sn))
  {
    hide AllLocated, TailFrom, PutAll;
    if sn.Snapshot? { PutAllConcat(EMPTY, sn.records, TailFrom(crc, segs, sn.segment, sn.offset)); }
  }

  /** Everything read at start-up is in the log or in the snapshot. */
  lemma LoadedIsKnown(crc: Checksum, s: Store, m: PhotoMeta)
    requires (s.snapshot.Snapshot? ==> s.snapshot.segment < |s.segs|) && m in Loaded(crc, s.segs, s.snapshot)
    ensures Known(s, m.photo)
  {
    hide AllLocated, TailFrom, InSegments, InRecords, InIndex;
    match s.snapshot
    case NoSnapshot => AllLocatedMembers(crc, s.segs, 0, m);
    case Snapshot(w, off, records, _) =>
      if m in records {
        MemberInRecords(records, m);
      } else {
        TailMembers(crc, s.segs, w, off, m);
      }
  }

  /** An entry that a replay leaves was read. */
  lemma EntryWasRead(ms: seq<PhotoMeta>, id: string)
    requires id in PutAll(EMPTY, ms).primary
    ensures PutAll(EMPTY, ms).primary[id] in ms
  {
    PutAllIsLast(EMPTY, ms, id);
    LastIsMember(ms, id);
  }

  ghost predicate OneContent(ms: seq<PhotoMeta>) {
    forall i, j | 0 <= i < |ms| && 0 <= j < |ms| && ms[i].photo.photoId == ms[j].photo.photoId ::
      ms[i].photo.contentHash == ms[j].photo.contentHash
  }

  /** A replay of records with one content per photo leaves a hash index that points right. */
  lemma {:induction false} PutAllPoints(ms: seq<PhotoMeta>)
    requires OneContent(ms)
    ensures HashesPoint(PutAll(EMPTY, ms))
  {
    if ms == [] {
      PutNothing(EMPTY);
    } else {
      var n := |ms| - 1;
      PutAllPoints(ms[..n]);
      assert ms == ms[..n] + [ms[n]];
      PutAllConcat(EMPTY, ms[..n], [ms[n]]);
      PutSingle(PutAll(EMPTY, ms[..n]), ms[n]);
      SameContentBefore(ms);
      hide PutAll, OneContent;
      PutPoints(PutAll(EMPTY, ms[..n]), ms[n]);
    }
  }

  lemma PutSingle(ix: Entries, m: PhotoMeta)
    ensures PutAll(ix, [m]) == Put(ix, m)
  {
    assert [m][1..] == [];
  }

  lemma SameContentBefore(ms: seq<PhotoMeta>)
    requires ms != [] && OneContent(ms)
    ensures var m, before := ms[|ms| - 1].photo, PutAll(EMPTY, ms[..|ms| - 1]).primary;
            m.photoId in before ==> before[m.photoId].photo.contentHash == m.contentHash
  {
    var n := |ms| - 1;
    var m, before := ms[n].photo, PutAll(EMPTY, ms[..n]).primary;
    if m.photoId in before {
      EntryWasRead(ms[..n], m.photoId);
      PutAllKeyed(EMPTY, ms[..n]);
      var i :| 0 <= i < n && ms[..n][i] == before[m.photoId];
      assert ms[i] == before[m.photoId];
    }
  }

  lemma PutPoints(ix: Entries, m: PhotoMeta)
    requires HashesPoint(ix)
    requires m.photo.photoId in ix.primary ==> ix.primary[m.photo.photoId].photo.contentHash == m.photo.contentHash
    ensures HashesPoint(Put(ix, m))
  {
  }

  lemma RemovePoints(ix: Entries, id: string)
    requires HashesPoint(ix)
    ensures HashesPoint(Remove(ix, id))
  {
  }

  // -------------------------------------------------------------- every step

  lemma LoadedOneContent(crc: Checksum, s: Store)
    requires ContentInv(s) && (s.snapshot.Snapshot? ==> s.snapshot.segment < |s.segs|)
    ensures OneContent(Loaded(crc, s.segs, s.snapshot))
  {
    hide Loaded, Known;
    var ms := Loaded(crc, s.segs, s.snapshot);
    forall i, j | 0 <= i < |ms| && 0 <= j < |ms| && ms[i].photo.photoId == ms[j].photo.photoId
      ensures ms[i].photo.contentHash == ms[j].photo.contentHash
    {
      LoadedIsKnown(crc, s, ms[i]);
      LoadedIsKnown(crc, s, ms[j]);
    }
  }

  lemma RestartKeepsBoth(crc: Checksum, s: Store)
    requires Takes(crc, s, Restart) && ContentInv(s)
    ensures ContentInv(Do(crc, s, Restart)) && HashesPoint(Do(crc, s, Restart).index)
  {
    SnapshotPlaced(crc, s);
    RestartOnly(crc, s);
    var s' := Do(crc, s, Restart);
    hide Do, Enabled, Inv, LoadFrom, Loaded, PutAll, InSegments, InRecords;
    LoadIsPutAll(crc, s.segs, s.snapshot);
    LoadedOneContent(crc, s);
    PutAllPoints(Loaded(crc, s.segs, s.snapshot));
    forall p | Known(s', p) ensures Backed(s, p) {
      if InIndex(s'.index.primary, p) {
        EntryWasRead(Loaded(crc, s.segs, s.snapshot), p.photoId);
        LoadedIsKnown(crc, s, s'.index.primary[p.photoId]);
      }
      KnownIsBacked(s, p);
    }
    BackedKeepsContent(s, s');
  }

  lemma RestartOnly(crc: Checksum, s: Store)
    requires Takes(crc, s, Restart) && (s.snapshot.Snapshot? ==> s.snapshot.segment < |s.segs|)
    ensures var s' := Do(crc, s, Restart);
            && s'.segs == s.segs && s'.snapshot == s.snapshot && s'.mark.NoMark?
            && s'.index == LoadFrom(crc, s.segs, s.snapshot)
  {
    hide LoadFrom, Inv, Usable;
  }

  /** The record of a pending update is in the log. */
  lemma PendingIsKnown(crc: Checksum, s: Store)
    requires Inv(crc, s) && s.op.Appended?
    ensures InSegments(s.segs, s.op.m.photo)
  {
    assert Agrees(s.segs, After(s).primary, PendingId(s));
    hide HomeOf, SnapshotInv, MarkInv, PassInv, BlobInv, PlacedInv, Name, Stale;
    HomeIsMember(s.segs, PendingId(s));
  }

  lemma PutKeepsBoth(crc: Checksum, s: Store)
    requires Takes(crc, s, IndexPut) && ContentInv(s) && HashesPoint(s.index)
    ensures ContentInv(Do(crc, s, IndexPut)) && HashesPoint(Do(crc, s, IndexPut).index)
  {
    PendingIsKnown(crc, s);
    var s', m := Do(crc, s, IndexPut), s.op.m;
    assert s'.segs == s.segs && s'.snapshot == s.snapshot && s'.mark == s.mark && s'.index == Put(s.index, m);
    assert Keyed(s.index.primary);
    hide Do, Enabled, Inv, InSegments, InRecords;
    if m.photo.photoId in s.index.primary {
      assert Known(s, s.index.primary[m.photo.photoId].photo) && Known(s, m.photo);
    }
    PutPoints(s.index, m);
    forall p | Known(s', p) ensures Backed(s, p) {
      assert InIndex(s'.index.primary, p) ==> p == m.photo || InIndex(s.index.primary, p);
      KnownIsBacked(s, p);
    }
    BackedKeepsContent(s, s');
  }

  /** What a rename leaves of a segment was there before. */
  lemma RenameKnowsNoMore(crc: Checksum, s: Store, p: Photo)
    requires Takes(crc, s, RenameSegment) && InSegments(Do(crc, s, RenameSegment).segs, p)
    ensures InSegments(s.segs, p)
  {
    var s' := Do(crc, s, RenameSegment);
    var j :| 0 <= j < |s'.segs| && p in s'.segs[j];
    KeptIsLast(crc, s, p.photoId);
    KeptMembers(crc, s, p);
    hide LogInv, SnapshotInv, MarkInv, PassInv, BlobInv, PendingInv, PlacedInv, FirstSeen, LastPhoto;
    assert p in s.segs[j];
  }

  lemma KeptMembers(crc: Checksum, s: Store, p: Photo)
    requires PassInv(crc, s.segs, s.pass) && s.pass.Checking?
    ensures s.pass.segment < |s.segs| && (p in s.pass.kept ==> p in s.segs[s.pass.segment])
  {
    hide Located, Name, FirstSeen, Clean, LastPhoto, NoneBetween;
    LastPhotoIsMember(s.segs[s.pass.segment], p.photoId);
  }

  /** The other steps add no record to what is known. */
  lemma StepKnowsNoMore(crc: Checksum, s: Store, step: Step, p: Photo)
    requires Takes(crc, s, step) && !IsAppend(step) && !step.IndexPut? && !step.Restart?
    requires Known(Do(crc, s, step), p)
    ensures Known(s, p)
  {
    if step.RenameSegment? {
      if InSegments(Do(crc, s, step).segs, p) { RenameKnowsNoMore(crc, s, p); }
      hide InSegments, FirstSeen, Inv;
    } else if step.CopyIndex? {
      hide InSegments, Inv, CopySound;
      if Do(crc, s, step).mark.Copied? && InRecords(step.records, p) {
        var i :| 0 <= i < |step.records| && step.records[i].photo == p;
      }
    } else {
      hide Name, Lines, Line, Scan, LoadFrom, Inv, CheckNext, FirstSeen, Lists, Fresh, Unshared, LookupSound, InRecords;
      if step.Rotate? && InSegments(Do(crc, s, step).segs, p) {
        var j :| 0 <= j < |s.segs + [[]]| && p in (s.segs + [[]])[j];
        assert p in s.segs[j];
      }
    }
  }

  lemma StepKeepsDedup(crc: Checksum, s: Store, step: Step)
    requires Takes(crc, s, step) && ContentInv(s) && HashesPoint(s.index)
    ensures ContentInv(Do(crc, s, step)) && HashesPoint(Do(crc, s, step).index)
  {
    if IsAppend(step) {
      ContentAfterAppend(crc, s, step);
      AppendStep(crc, s, step);
    } else if step.IndexPut? {
      PutKeepsBoth(crc, s);
    } else if step.Restart? {
      RestartKeepsBoth(crc, s);
    } else {
      var s' := Do(crc, s, step);
      IndexAfterStep(crc, s, step);
      hide Do, Enabled, Inv, Known, HashesPoint;
      forall p | Known(s', p) ensures Backed(s, p) {
        StepKnowsNoMore(crc, s, step, p);
        KnownIsBacked(s, p);
      }
      BackedKeepsContent(s, s');
      if step.IndexRemove? { RemovePoints(s.index, s.op.id); }
    }
  }

  lemma IndexAfterStep(crc: Checksum, s: Store, step: Step)
    requires Takes(crc, s, step) && !IsAppend(step) && !step.IndexPut? && !step.Restart?
    ensures Do(crc, s, step).index == if step.IndexRemove? then Remove(s.index, s.op.id) else s.index
    ensures step.IndexRemove? ==> s.op.Buried?
  {
    hide Name, Lines, Line, Scan, LoadFrom, Inv, CheckNext, FirstSeen, Lists, Fresh, Unshared, LookupSound, Remove;
  }

  lemma {:induction false} RunKeepsDedup(crc: Checksum, s: Store, steps: seq<Step>, s': Store)
    requires Inv(crc, s) && ContentInv(s) && HashesPoint(s.index) && IsRun(crc, s, steps, s')
    ensures ContentInv(s') && HashesPoint(s'.index)
    decreases |steps|
  {
    hide Inv, Do, Enabled, ContentInv, HashesPoint;
    if steps != [] {
      StepKeepsInv(crc, s, steps[0]);
      StepKeepsDedup(crc, s, steps[0]);
      RunKeepsDedup(crc, Do(crc, s, steps[0]), steps[1..], s');
    }
  }

  /** In every reachable state, after any restarts: when the duplicate check refuses an
      upload there is an entry with that content to return. */
  lemma DuplicateIsFound(crc: Checksum, s: Store, h: string)
    requires Reachable(crc, s)
    ensures ContainsHash(s.index, h) <==> GetByHash(s.index, h).Some?
    ensures ContainsHash(s.index, h) ==> GetByHash(s.index, h).value.photo.contentHash == h
  {
    hide Inv, IsRun, ContentInv;
    var steps :| IsRun(crc, INIT, steps, s);
    InitInv(crc);
    assert ContentInv(INIT) by { NothingKnown(); }
    RunKeepsDedup(crc, INIT, steps, s);
  }

  lemma NothingKnown()
    ensures ContentInv(INIT)
  {
  }
}
