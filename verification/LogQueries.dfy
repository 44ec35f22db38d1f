/** Facts about the last record of a photo in a log, and how appending a record,
    rotating and rewriting a segment change it. */
module LogQueries {
  import opened Basics
  import opened Models
  import opened Names
  import opened LogFormat
  import opened LogReader
  import opened LogReplay
  import opened Index
  import opened Compaction
  import opened Engine

  predicate Has(ps: seq<Photo>, id: string) {
    LastPhoto(ps, id).Some?
  }

  /** The index places the photo in segment `j`. */
  predicate LivesIn(primary: Primary, id: string, j: nat) {
    id in primary && primary[id].segmentId == Name(j + 1)
  }

  ghost predicate NoneFrom(segs: seq<seq<Photo>>, j: nat, id: string) {
    forall u :: j <= u < |segs| ==> !Has(segs[u], id)
  }

  /** What `HomeOf` computes. */
  lemma {:induction false} HomeSpec(segs: seq<seq<Photo>>, id: string)
    ensures match HomeOf(segs, id)
            case At(j, p) => j < |segs| && LastPhoto(segs[j], id) == Some(p) && NoneFrom(segs, j + 1, id)
            case Nowhere => NoneFrom(segs, 0, id)
  {
    if segs != [] {
      var n := |segs| - 1;
      if LastPhoto(segs[n], id).None? {
        HomeSpec(segs[..n], id);
        forall u | 0 <= u < |segs| && (HomeOf(segs, id).At? ==> HomeOf(segs, id).segment < u)
          ensures !Has(segs[u], id)
        {
          if u < n { assert segs[..n][u] == segs[u]; }
        }
      }
    }
  }

  lemma {:induction false} HomeIs(segs: seq<seq<Photo>>, id: string, j: nat)
    requires j < |segs| && Has(segs[j], id) && NoneFrom(segs, j + 1, id)
    ensures HomeOf(segs, id) == At(j, LastPhoto(segs[j], id).value)
  {
    var n := |segs| - 1;
    if j < n {
      assert !Has(segs[n], id);
      forall u | j + 1 <= u < n ensures !Has(segs[..n][u], id) {
        assert segs[..n][u] == segs[u];
      }
      HomeIs(segs[..n], id, j);
    }
  }

  lemma HomeIsNowhere(segs: seq<seq<Photo>>, id: string)
    requires NoneFrom(segs, 0, id)
    ensures HomeOf(segs, id) == Nowhere
  {
    HomeSpec(segs, id);
  }

  // --------------------------------------------------------------- appending

  lemma {:induction false} LastPhotoSnoc(ps: seq<Photo>, p: Photo, id: string)
    ensures LastPhoto(ps + [p], id) == if p.photoId == id then Some(p) else LastPhoto(ps, id)
  {
    assert (ps + [p])[..|ps + [p]| - 1] == ps;
  }

  lemma HomeAfterAppend(segs: seq<seq<Photo>>, p: Photo, id: string)
    requires segs != []
    ensures HomeOf(AppendTo(segs, p), id) ==
            if p.photoId == id then At(|segs| - 1, p) else HomeOf(segs, id)
  {
    var n := |segs| - 1;
    LastPhotoSnoc(segs[n], p, id);
    assert AppendTo(segs, p)[..n] == segs[..n];
  }

  lemma HomeAfterRotate(segs: seq<seq<Photo>>, id: string)
    ensures HomeOf(segs + [[]], id) == HomeOf(segs, id)
  {
    assert (segs + [[]])[..|segs|] == segs;
  }

  // ------------------------------------------------- replays and last records

  /** Of the segments from the j-th on, a replay ends with the last record there. */
  lemma {:induction false} LastOfAllLocated(crc: Checksum, segs: seq<seq<Photo>>, j: nat, id: string)
    ensures match Last(AllLocated(crc, segs, j), id)
            case None => NoneFrom(segs, j, id)
            case Some(m) => exists u :: j <= u < |segs| && NoneFrom(segs, u + 1, id) &&
                              LastPhoto(segs[u], id) == Some(m.photo) && m.segmentId == Name(u + 1)
    decreases |segs| - j
  {
    hide Name, Line, Lines;
    if j < |segs| {
      LastOfAllLocated(crc, segs, j + 1, id);
      LastLocated(crc, Name(j + 1), segs[j], 0, id);
      LastConcat(Located(crc, Name(j + 1), segs[j], 0), AllLocated(crc, segs, j + 1), id);
    }
  }

  /** A record read by a full replay as the last for its photo is its home. */
  lemma LastOfFullReplay(crc: Checksum, segs: seq<seq<Photo>>, id: string)
    ensures match Last(AllLocated(crc, segs, 0), id)
            case None => HomeOf(segs, id).Nowhere?
            case Some(m) => HomeOf(segs, id).At? && HomeOf(segs, id).photo == m.photo &&
                            m.segmentId == Name(HomeOf(segs, id).segment + 1)
  {
    hide Name, AllLocated, HomeOf;
    LastOfAllLocated(crc, segs, 0, id);
    match Last(AllLocated(crc, segs, 0), id)
    case None => HomeIsNowhere(segs, id);
    case Some(m) =>
      var u :| 0 <= u < |segs| && NoneFrom(segs, u + 1, id) &&
        LastPhoto(segs[u], id) == Some(m.photo) && m.segmentId == Name(u + 1);
      HomeIs(segs, id, u);
  }

  lemma LastOfSuffix(ms: seq<PhotoMeta>, i: nat, id: string)
    requires i <= |ms|
    ensures Last(ms[i..], id).Some? ==> Last(ms[i..], id) == Last(ms, id)
  {
    assert ms == ms[..i] + ms[i..];
    LastConcat(ms[..i], ms[i..], id);
  }

  /** A replay from an offset, wherever it lands, ends with the segment's last record
      for each photo it reads at all. */
  lemma LastOfScanFrom(crc: Checksum, segment: string, ps: seq<Photo>, off: nat, id: string)
    ensures var last := Last(ScanFrom(crc, segment, Lines(crc, ps), off), id);
            last.Some? ==> LastPhoto(ps, id) == Some(last.value.photo) && last.value.segmentId == segment
  {
    hide Lines, ScanFrom, Located, SeeksTo;
    SeekLaw(crc, segment, ps, off);
    LastLocated(crc, segment, ps, 0, id);
    if i :| 0 <= i <= |ps| && SeeksTo(crc, ps, off, i) {
      LastOfSuffix(Located(crc, segment, ps, 0), i, id);
    }
  }

  /** The same for everything replayed after a watermark. */
  lemma LastOfTail(crc: Checksum, segs: seq<seq<Photo>>, w: nat, off: nat, id: string)
    requires w < |segs|
    ensures match Last(TailFrom(crc, segs, w, off), id)
            case None => true
            case Some(m) => HomeOf(segs, id).At? && HomeOf(segs, id).photo == m.photo &&
                            m.segmentId == Name(HomeOf(segs, id).segment + 1)
  {
    hide Name, AllLocated, HomeOf, Lines, ScanFrom;
    var head := ScanFrom(crc, Name(w + 1), Lines(crc, segs[w]), off);
    LastConcat(head, AllLocated(crc, segs, w + 1), id);
    LastOfAllLocated(crc, segs, w + 1, id);
    LastOfScanFrom(crc, Name(w + 1), segs[w], off, id);
    match Last(AllLocated(crc, segs, w + 1), id)
    case Some(m) =>
      var u :| w + 1 <= u < |segs| && NoneFrom(segs, u + 1, id) &&
        LastPhoto(segs[u], id) == Some(m.photo) && m.segmentId == Name(u + 1);
      HomeIs(segs, id, u);
    case None =>
      if Last(head, id).Some? { HomeIs(segs, id, w); }
  }

  lemma HomeTells(segs: seq<seq<Photo>>, k: nat, id: string)
    ensures NoneFrom(segs, k, id) <==> HomeOf(segs, id).Nowhere? || HomeOf(segs, id).segment < k
  {
    hide HomeOf, LastPhoto;
    HomeSpec(segs, id);
  }

  /** The records from the i-th on are what a segment of those alone would hold. */
  lemma LocatedFrom(crc: Checksum, segment: string, ps: seq<Photo>, i: nat, id: string)
    requires i <= |ps|
    ensures Last(Located(crc, segment, ps, 0)[i..], id).Some? <==> LastPhoto(ps[i..], id).Some?
  {
    hide Located, Last, LastPhoto, Lines;
    assert ps == ps[..i] + ps[i..];
    LocatedConcat(crc, segment, ps[..i], ps[i..], 0);
    var base := |Lines(crc, ps[..i])|;
    assert Located(crc, segment, ps, 0)[i..] == Located(crc, segment, ps[i..], base);
    LastLocated(crc, segment, ps[i..], base, id);
  }

  /** `ReadsFrom` says which photos a replay from any offset reads. */
  lemma ScanReads(crc: Checksum, segment: string, ps: seq<Photo>, off: nat, id: string)
    ensures Last(ScanFrom(crc, segment, Lines(crc, ps), off), id).Some? <==> ReadsFrom(crc, ps, off, id)
  {
    hide Located, Last, LastPhoto, Lines, ScanFrom, SeeksTo;
    SeekLaw(crc, segment, ps, off);
    if i :| 0 <= i <= |ps| && SeeksTo(crc, ps, off, i) {
      LocatedFrom(crc, segment, ps, i, id);
      forall k | 0 <= k <= |ps| && SeeksTo(crc, ps, off, k)
        ensures Last(ScanFrom(crc, segment, Lines(crc, ps), off), id).Some? <==> LastPhoto(ps[k..], id).Some?
      {
        LocatedFrom(crc, segment, ps, k, id);
      }
    } else {
      LastOfNothing(id);
    }
  }

  lemma LastOfNothing(id: string)
    ensures Last([], id).None?
  {
  }

  lemma {:induction false} SuffixHas(ps: seq<Photo>, i: nat, id: string)
    requires i <= |ps| && Has(ps[i..], id)
    ensures Has(ps, id)
  {
    LastPhotoIsMember(ps[i..], id);
    LastPhotoIsMember(ps, id);
  }

  /** Which photos the replay behind a watermark does not read. */
  lemma TailReads(crc: Checksum, segs: seq<seq<Photo>>, w: nat, off: nat, id: string)
    requires w < |segs|
    ensures Last(TailFrom(crc, segs, w, off), id).None? <==> Unread(crc, segs, w, off, id)
  {
    hide Name, ScanFrom, Lines, AllLocated, Last, LastPhoto, HomeOf, ReadsFrom;
    LastConcat(ScanFrom(crc, Name(w + 1), Lines(crc, segs[w]), off), AllLocated(crc, segs, w + 1), id);
    LastOfAllLocated(crc, segs, w + 1, id);
    ScanReads(crc, Name(w + 1), segs[w], off, id);
    HomeTells(segs, w, id);
    HomeTells(segs, w + 1, id);
    if ReadsFrom(crc, segs[w], off, id) { ReadsHas(crc, segs[w], off, id); }
  }

  lemma ReadsHas(crc: Checksum, ps: seq<Photo>, off: nat, id: string)
    requires ReadsFrom(crc, ps, off, id)
    ensures Has(ps, id)
  {
    hide LastPhoto, SeeksTo;
    var i :| 0 <= i <= |ps| && SeeksTo(crc, ps, off, i) && LastPhoto(ps[i..], id).Some?;
    SuffixHas(ps, i, id);
  }

  // ------------------------------------------------------ agreement and live

  function LiveAt(primary: Primary, id: string): Option<PhotoMeta> {
    if IsLive(primary, id) then Some(Settled(primary[id])) else None
  }

  lemma LiveByPhoto(a: Primary, b: Primary)
    ensures Live(a) == Live(b) <==> forall id :: LiveAt(a, id) == LiveAt(b, id)
  {
    if Live(a) == Live(b) {
      forall id ensures LiveAt(a, id) == LiveAt(b, id) {
        assert id in Live(a) <==> id in Live(b);
      }
    }
    if forall id :: LiveAt(a, id) == LiveAt(b, id) {
      forall id
        ensures id in Live(a) <==> id in Live(b)
        ensures id in Live(a) && id in Live(b) ==> Live(a)[id] == Live(b)[id]
      {
        assert LiveAt(a, id) == LiveAt(b, id);
      }
    }
  }

  /** Two maps that agree with the same log show the same photos. */
  lemma AgreementFixesLive(segs: seq<seq<Photo>>, a: Primary, b: Primary)
    requires forall id :: Agrees(segs, a, id) && Agrees(segs, b, id)
    ensures Live(a) == Live(b)
  {
    hide Name, HomeOf;
    forall id
      ensures id in Live(a) <==> id in Live(b)
      ensures id in Live(a) && id in Live(b) ==> Live(a)[id] == Live(b)[id]
    {
      assert Agrees(segs, a, id) && Agrees(segs, b, id);
    }
  }

  /** Full replay agrees with the log on every photo. */
  lemma FullReplayAgrees(crc: Checksum, segs: seq<seq<Photo>>, id: string)
    ensures Agrees(segs, PutAll(EMPTY, AllLocated(crc, segs, 0)).primary, id)
  {
    hide Name, AllLocated, HomeOf, PutAll;
    LastOfFullReplay(crc, segs, id);
    PutAllIsLast(EMPTY, AllLocated(crc, segs, 0), id);
  }

  lemma ReplayReads(crc: Checksum, segs: seq<seq<Photo>>, id: string)
    ensures HomeOf(segs, id).At? <==> id in PutAll(EMPTY, AllLocated(crc, segs, 0)).primary
  {
    hide AllLocated, PutAll, HomeOf, Name;
    LastOfFullReplay(crc, segs, id);
    PutAllIsLast(EMPTY, AllLocated(crc, segs, 0), id);
  }
}
