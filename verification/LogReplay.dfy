/** `LogReader`'s loops over one segment and over the whole log directory, and what
    they find in a directory that holds a sequence of segments of records. */
module LogReplay {
  import opened Basics
  import opened Models
  import opened Names
  import opened LogFormat
  import opened LogReader

  /** The log directory: file names and contents. */
  type Directory = map<string, Bytes>

  // ------------------------------------------------------------ specification

  /** The replay of one named segment; a missing file yields nothing. */
  function ReplayFile(crc: Checksum, files: Directory, segment: string): seq<PhotoMeta> {
    if segment in files then Scan(crc, segment, files[segment], 0) else []
  }

  /** The same, after a seek. */
  function ReplayFileFrom(crc: Checksum, files: Directory, segment: string, off: nat): seq<PhotoMeta> {
    if segment in files then ScanFrom(crc, segment, files[segment], off) else []
  }

  function ReplayNames(crc: Checksum, files: Directory, names: seq<string>): seq<PhotoMeta> {
    if names == [] then []
    else ReplayFile(crc, files, names[0]) + ReplayNames(crc, files, names[1..])
  }

  /** `replay_all` */
  function ReplayAll(crc: Checksum, files: Directory): seq<PhotoMeta> {
    ReplayNames(crc, files, Listing(files.Keys))
  }

  /** The three cases of the loop in `_replay_after` for one listed segment. */
  function ReplayFileAfter(crc: Checksum, files: Directory, segment: string, counter: nat, off: nat): seq<PhotoMeta> {
    if !IsSegment(segment) || Counter(segment) < counter then []
    else if Counter(segment) == counter then ReplayFileFrom(crc, files, segment, off)
    else ReplayFile(crc, files, segment)
  }

  function ReplayNamesAfter(
      crc: Checksum, files: Directory, names: seq<string>, counter: nat, off: nat): seq<PhotoMeta> {
    if names == [] then []
    else ReplayFileAfter(crc, files, names[0], counter, off) + ReplayNamesAfter(crc, files, names[1..], counter, off)
  }

  /** The records replayed after a watermark; nothing if its segment name is invalid. */
  function ReplayAfter(crc: Checksum, files: Directory, segment: string, off: nat): seq<PhotoMeta> {
    if !IsSegment(segment) then []
    else ReplayNamesAfter(crc, files, Listing(files.Keys), Counter(segment), off)
  }

  // ------------------------------------------- a directory of written segments

  /** The directory holds exactly the segments 1, ..., |segs|, written by appending
      the records of `segs`, and possibly files that are not segments. */
  ghost predicate Holds(crc: Checksum, files: Directory, segs: seq<seq<Photo>>) {
    && |segs| <= MAX_COUNTER
    && (forall c :: 1 <= c <= |segs| ==> Name(c) in files && files[Name(c)] == Lines(crc, segs[c - 1]))
    && (forall n :: n in files && IsSegment(n) ==> 1 <= Counter(n) <= |segs|)
  }

  /** The records of the segments from the j-th on, as `append` returned them. */
  function AllLocated(crc: Checksum, segs: seq<seq<Photo>>, j: nat): seq<PhotoMeta>
    decreases |segs| - j
  {
    if j >= |segs| then []
    else Located(crc, Name(j + 1), segs[j], 0) + AllLocated(crc, segs, j + 1)
  }

  /** What a watermark in segment `w` (counted from 0) leaves to replay. */
  function TailFrom(crc: Checksum, segs: seq<seq<Photo>>, w: nat, off: nat): seq<PhotoMeta>
    requires w < |segs|
  {
    ScanFrom(crc, Name(w + 1), Lines(crc, segs[w]), off) + AllLocated(crc, segs, w + 1)
  }

  /** One more record in the last segment. */
  function AppendTo(segs: seq<seq<Photo>>, p: Photo): seq<seq<Photo>>
    requires segs != []
  {
    var n := |segs| - 1;
    segs[n := segs[n] + [p]]
  }

  lemma {:induction false} AllLocatedOnlyReads(crc: Checksum, a: seq<seq<Photo>>, b: seq<seq<Photo>>, j: nat)
    requires |a| == |b| && forall u :: j <= u < |a| ==> a[u] == b[u]
    ensures AllLocated(crc, a, j) == AllLocated(crc, b, j)
    decreases |a| - j
  {
    if j < |a| { AllLocatedOnlyReads(crc, a, b, j + 1); }
  }

  lemma {:induction false} AllLocatedAfterAppend(crc: Checksum, segs: seq<seq<Photo>>, p: Photo, j: nat)
    requires segs != [] && j < |segs|
    ensures AllLocated(crc, AppendTo(segs, p), j) ==
            AllLocated(crc, segs, j) +
            [Place(p, Name(|segs|), |Lines(crc, segs[|segs| - 1])|, |Line(crc, p)|)]
    decreases |segs| - j
  {
    hide Lines, Line, Name;
    var n := |segs| - 1;
    var segs' := AppendTo(segs, p);
    var m := Place(p, Name(|segs|), |Lines(crc, segs[n])|, |Line(crc, p)|);
    if j == n {
      LocatedConcat(crc, Name(n + 1), segs[n], [p], 0);
      assert [p][1..] == [];
      assert Located(crc, Name(n + 1), segs'[n], 0) == Located(crc, Name(n + 1), segs[n], 0) + [m];
    } else {
      AllLocatedAfterAppend(crc, segs, p, j + 1);
      Associate(Located(crc, Name(j + 1), segs[j], 0), AllLocated(crc, segs, j + 1), [m]);
    }
  }

  lemma {:induction false} AllLocatedAfterRotate(crc: Checksum, segs: seq<seq<Photo>>, j: nat)
    ensures AllLocated(crc, segs + [[]], j) == AllLocated(crc, segs, j)
    decreases |segs| - j
  {
    hide Line, Lines, Name;
    if j < |segs| {
      AllLocatedAfterRotate(crc, segs, j + 1);
    } else if j == |segs| {
      assert AllLocated(crc, segs + [[]], j + 1) == [];
      assert (segs + [[]])[j] == [];
    }
  }

  lemma NameRangeTail(lo: nat, hi: nat)
    requires lo < hi
    ensures NameRange(lo, hi) == [Name(lo)] + NameRange(lo + 1, hi)
    ensures NameRange(lo, hi)[0] == Name(lo) && NameRange(lo, hi)[1..] == NameRange(lo + 1, hi)
  {
    hide Name;
  }

  /** The replay of the segments lo, ..., hi - 1 starts with that of the first. */
  lemma ReplayFirst(crc: Checksum, files: Directory, lo: nat, hi: nat)
    requires lo < hi
    ensures ReplayNames(crc, files, NameRange(lo, hi)) ==
            ReplayFile(crc, files, Name(lo)) + ReplayNames(crc, files, NameRange(lo + 1, hi))
  {
    hide Name, NameRange, ReplayFile;
    NameRangeTail(lo, hi);
  }

  lemma ReplayFirstAfter(crc: Checksum, files: Directory, lo: nat, hi: nat, counter: nat, off: nat)
    requires lo < hi
    ensures ReplayNamesAfter(crc, files, NameRange(lo, hi), counter, off) ==
            ReplayFileAfter(crc, files, Name(lo), counter, off) +
            ReplayNamesAfter(crc, files, NameRange(lo + 1, hi), counter, off)
  {
    hide Name, NameRange, ReplayFileAfter;
    NameRangeTail(lo, hi);
  }

  lemma ReplayNoneAfter(crc: Checksum, files: Directory, n: nat, counter: nat, off: nat)
    ensures ReplayNamesAfter(crc, files, NameRange(n, n), counter, off) == []
  {
    hide Name;
    assert NameRange(n, n) == [];
  }

  lemma AllLocatedFirst(crc: Checksum, segs: seq<seq<Photo>>, j: nat)
    ensures j < |segs| ==>
              AllLocated(crc, segs, j) == Located(crc, Name(j + 1), segs[j], 0) + AllLocated(crc, segs, j + 1)
    ensures j >= |segs| ==> AllLocated(crc, segs, j) == []
  {
    hide Located, Name;
  }

  lemma ReplayNone(crc: Checksum, files: Directory, n: nat)
    ensures ReplayNames(crc, files, NameRange(n, n)) == []
  {
    hide Name;
    assert NameRange(n, n) == [];
  }

  lemma ListingOfHolds(crc: Checksum, files: Directory, segs: seq<seq<Photo>>)
    requires Holds(crc, files, segs)
    ensures Listing(files.Keys) == NameRange(1, |segs| + 1)
  {
    hide Name, IsSegment, Counter, Listing;
    ListingOfRange(files.Keys, |segs|);
  }

  lemma {:induction false} ReplayRange(crc: Checksum, files: Directory, segs: seq<seq<Photo>>, j: nat)
    requires Holds(crc, files, segs) && j <= |segs|
    ensures ReplayNames(crc, files, NameRange(j + 1, |segs| + 1)) == AllLocated(crc, segs, j)
    decreases |segs| - j
  {
    hide Name, IsSegment, Counter, Scan, Lines, Located;
    if j < |segs| {
      NameRangeTail(j + 1, |segs| + 1);
      assert Name(j + 1) in files;
      ScanLines(crc, Name(j + 1), segs[j], 0);
      ReplayRange(crc, files, segs, j + 1);
    }
  }

  /** Append/replay agreement: a replay of the whole directory yields exactly the
      appended records, in the order of the appends, each with the segment, offset
      and length that `append` returned for it. */
  lemma ReplayAllOfHolds(crc: Checksum, files: Directory, segs: seq<seq<Photo>>)
    requires Holds(crc, files, segs)
    ensures ReplayAll(crc, files) == AllLocated(crc, segs, 0)
  {
    hide Listing, NameRange, ReplayNames, AllLocated;
    ListingOfHolds(crc, files, segs);
    ReplayRange(crc, files, segs, 0);
  }

  lemma ReplayOneAfter(crc: Checksum, files: Directory, segs: seq<seq<Photo>>, j: nat, w: nat, off: nat)
    requires Holds(crc, files, segs) && j < |segs|
    ensures ReplayFileAfter(crc, files, Name(j + 1), w + 1, off) ==
            if j < w then []
            else if j == w then ScanFrom(crc, Name(j + 1), Lines(crc, segs[j]), off)
            else Located(crc, Name(j + 1), segs[j], 0)
  {
    NameRoundTrip(j + 1);
    hide Name, IsSegment, Counter, Scan, ScanFrom, Lines, Located;
    assert Name(j + 1) in files;
    ScanLines(crc, Name(j + 1), segs[j], 0);
  }

  lemma TailIs(crc: Checksum, segs: seq<seq<Photo>>, w: nat, off: nat)
    requires w < |segs|
    ensures TailFrom(crc, segs, w, off) ==
            ScanFrom(crc, Name(w + 1), Lines(crc, segs[w]), off) + AllLocated(crc, segs, w + 1)
  {
    hide ScanFrom, AllLocated, Name, Lines;
  }

  lemma ReplayAllIs(crc: Checksum, files: Directory)
    ensures ReplayAll(crc, files) == ReplayNames(crc, files, Listing(files.Keys))
  {
    hide ReplayNames, Listing;
  }

  lemma {:induction false} ReplayRangeAfter(
      crc: Checksum, files: Directory, segs: seq<seq<Photo>>, j: nat, w: nat, off: nat)
    requires Holds(crc, files, segs) && j <= |segs| && w < |segs|
    ensures ReplayNamesAfter(crc, files, NameRange(j + 1, |segs| + 1), w + 1, off) ==
            if j <= w then TailFrom(crc, segs, w, off) else AllLocated(crc, segs, j)
    decreases |segs| - j
  {
    hide *;
    var n := |segs|;
    AllLocatedFirst(crc, segs, j);
    if j < n {
      TailIs(crc, segs, w, off);
      ReplayFirstAfter(crc, files, j + 1, n + 1, w + 1, off);
      ReplayOneAfter(crc, files, segs, j, w, off);
      ReplayRangeAfter(crc, files, segs, j + 1, w, off);
    } else {
      ReplayNoneAfter(crc, files, n + 1, w + 1, off);
    }
  }

  lemma ReplayAfterUnfolds(crc: Checksum, files: Directory, segment: string, off: nat)
    requires IsSegment(segment)
    ensures ReplayAfter(crc, files, segment, off) ==
            ReplayNamesAfter(crc, files, Listing(files.Keys), Counter(segment), off)
  {
    hide IsSegment, Counter, Listing, ReplayNamesAfter;
  }

  lemma HoldsFile(crc: Checksum, files: Directory, segs: seq<seq<Photo>>, j: nat)
    requires Holds(crc, files, segs) && j < |segs|
    ensures Name(j + 1) in files && files[Name(j + 1)] == Lines(crc, segs[j])
  {
    hide Name, Lines, IsSegment, Counter;
    var c := j + 1;
    assert Name(c) in files && files[Name(c)] == Lines(crc, segs[c - 1]);
  }

  lemma HoldsBound(crc: Checksum, files: Directory, segs: seq<seq<Photo>>)
    requires Holds(crc, files, segs)
    ensures |segs| <= MAX_COUNTER
  {
  }

  /** A replay after a watermark keeps exactly the segments from the watermark's on:
      that one from the offset, the later ones whole. */
  lemma ReplayAfterOfHolds(crc: Checksum, files: Directory, segs: seq<seq<Photo>>, w: nat, off: nat)
    requires Holds(crc, files, segs) && w < |segs|
    ensures ReplayAfter(crc, files, Name(w + 1), off) == TailFrom(crc, segs, w, off)
  {
    hide *;
    HoldsBound(crc, files, segs);
    NameRoundTrip(w + 1);
    ReplayAfterUnfolds(crc, files, Name(w + 1), off);
    ListingOfHolds(crc, files, segs);
    ReplayRangeAfter(crc, files, segs, 0, w, off);
  }

  lemma ReplayNamesAfterStep(crc: Checksum, files: Directory, names: seq<string>, i: nat, counter: nat, off: nat)
    requires i < |names|
    ensures ReplayNamesAfter(crc, files, names[i..], counter, off) ==
            ReplayFileAfter(crc, files, names[i], counter, off) +
            ReplayNamesAfter(crc, files, names[i + 1..], counter, off)
  {
    hide ReplayFileAfter;
    assert names[i..][0] == names[i] && names[i..][1..] == names[i + 1..];
  }

  // -------------------------------------------------------------------- loops

  /** `f.readline()` at position `pos`. */
  method ReadLine(b: Bytes, pos: nat) returns (line: Bytes)
    requires pos <= |b|
    ensures line == b[pos..][..LineLength(b[pos..])]
  {
    var e := pos;
    while e < |b| && b[e] != '\n'
      invariant pos <= e <= |b|
      invariant LineLength(b[pos..]) == e - pos + LineLength(b[e..])
    {
      assert b[e..][1..] == b[e + 1..];
      e := e + 1;
    }
    if e < |b| { e := e + 1; }
    line := b[pos..e];
    assert line == b[pos..][..e - pos];
  }

  /** One step of the scan, as the loops take it. */
  lemma ScanStep(crc: Checksum, segment: string, b: Bytes, pos: nat, line: Bytes)
    requires pos < |b| && line == b[pos..][..LineLength(b[pos..])]
    ensures 0 < |line| <= |b| - pos
    ensures Scan(crc, segment, b[pos..], pos) ==
            match Decode(crc, line)
            case Blank => Scan(crc, segment, b[pos + |line|..], pos + |line|)
            case Bad => []
            case Good(p) => [Place(p, segment, pos, |line|)] + Scan(crc, segment, b[pos + |line|..], pos + |line|)
  {
    hide Decode, LineLength;
    var n := LineLength(b[pos..]);
    assert b[pos..][n..] == b[pos + n..];
  }

  lemma ScanAtEnd(crc: Checksum, segment: string, b: Bytes)
    ensures Scan(crc, segment, b[|b|..], |b|) == []
  {
  }

  /** The loop shared in form by both replays: read line by line from the cursor and
      stop at the first bad line. */
  method ReplayFromCursor(crc: Checksum, segment: string, b: Bytes, start: nat) returns (records: seq<PhotoMeta>)
    requires start <= |b|
    ensures records == Scan(crc, segment, b[start..], start)
  {
    hide Decode, Scan, LineLength;
    records := [];
    var pos := start;
    while true
      invariant pos <= |b|
      invariant records + Scan(crc, segment, b[pos..], pos) == Scan(crc, segment, b[start..], start)
      decreases |b| - pos
    {
      var lineOffset := pos;
      var line := ReadLine(b, pos);
      if pos == |b| {
        ScanAtEnd(crc, segment, b);
        break;
      }
      ScanStep(crc, segment, b, pos, line);
      pos := pos + |line|;
      match Decode(crc, line) {
        case Blank =>
        case Bad => break;
        case Good(p) =>
          Associate(records, [Place(p, segment, lineOffset, |line|)], Scan(crc, segment, b[pos..], pos));
          records := records + [Place(p, segment, lineOffset, |line|)];
      }
    }
  }

  /** `replay_segment`: from the start of the file. */
  method ReplaySegment(crc: Checksum, files: Directory, segment: string) returns (records: seq<PhotoMeta>)
    ensures records == ReplayFile(crc, files, segment)
  {
    if segment in files {
      records := ReplayFromCursor(crc, segment, files[segment], 0);
      assert files[segment][0..] == files[segment];
    } else {
      records := [];
    }
  }

  /** `replay_segment_from_offset`: after a seek, which may go behind the end. */
  method ReplaySegmentFromOffset(crc: Checksum, files: Directory, segment: string, startOffset: nat)
    returns (records: seq<PhotoMeta>)
    ensures records == ReplayFileFrom(crc, files, segment, startOffset)
  {
    if segment in files && startOffset <= |files[segment]| {
      records := ReplayFromCursor(crc, segment, files[segment], startOffset);
      ScanFromIsScan(crc, segment, files[segment], startOffset);
    } else {
      records := [];
    }
  }

  /** `replay_all`: chain the replays of all segments in listing order. */
  method ReplayDirectory(crc: Checksum, files: Directory) returns (records: seq<PhotoMeta>)
    ensures records == ReplayAll(crc, files)
  {
    hide ReplayFile, Listing;
    records := [];
    var names := Listing(files.Keys);
    var i := 0;
    assert names[0..] == names;
    while i < |names|
      invariant 0 <= i <= |names|
      invariant records + ReplayNames(crc, files, names[i..]) == ReplayNames(crc, files, names)
    {
      var part := ReplaySegment(crc, files, names[i]);
      assert names[i..][0] == names[i] && names[i..][1..] == names[i + 1..];
      Associate(records, part, ReplayNames(crc, files, names[i + 1..]));
      records := records + part;
      i := i + 1;
    }
  }
}
