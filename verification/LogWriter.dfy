/** The append-only writer with segment rotation. */
module LogWriter {
  import opened Basics
  import opened Models
  import opened Names
  import opened LogFormat
  import opened LogReader
  import opened LogReplay
  import opened Storage

  // ------------------------------------------------------------ specification

  /** Opening a file in append mode creates it if it is missing and keeps its bytes. */
  function Touch(files: Directory, name: string): Directory {
    if name in files then files else files[name := []]
  }

  function Extend(files: Directory, name: string, text: Bytes): Directory
    requires name in files
  {
    files[name := files[name] + text]
  }

  ghost predicate IsHighest(files: Directory, highest: nat) {
    && (forall n :: n in files && IsSegment(n) ==> Counter(n) <= highest)
    && (highest == 0 || exists n :: n in files && IsSegment(n) && Counter(n) == highest)
  }

  /** The segment a writer opens: the first if there is none, the highest if it has
      room, and otherwise the next. */
  function OpenCounter(files: Directory, highest: nat, limit: nat): nat {
    if highest == 0 then 1
    else if Name(highest) in files && |files[Name(highest)]| >= limit then highest + 1
    else highest
  }

  // --------------------------------------------------- what it does to the log

  /** Appending to the active file appends to the last segment. */
  lemma HoldsAfterAppend(crc: Checksum, files: Directory, segs: seq<seq<Photo>>, p: Photo)
    requires Holds(crc, files, segs) && segs != []
    ensures Name(|segs|) in files
    ensures Holds(crc, Extend(files, Name(|segs|), Line(crc, p)), AppendTo(segs, p))
  {
    hide Name, IsSegment, Counter, Lines, Line;
    var n := |segs|;
    LinesSnoc(crc, segs[n - 1], p);
    var files' := Extend(files, Name(n), Line(crc, p));
    forall c | 1 <= c <= n
      ensures Name(c) in files' && files'[Name(c)] == Lines(crc, AppendTo(segs, p)[c - 1])
    {
      if Name(c) == Name(n) { NameInjective(c, n); }
    }
  }

  /** Opening the next file starts an empty segment. */
  lemma HoldsAfterRotate(crc: Checksum, files: Directory, segs: seq<seq<Photo>>)
    requires Holds(crc, files, segs) && |segs| < MAX_COUNTER
    ensures Name(|segs| + 1) !in files
    ensures Holds(crc, Touch(files, Name(|segs| + 1)), segs + [[]])
  {
    var n := |segs|;
    NameRoundTrip(n + 1);
    LinesOfNothing(crc);
    hide Name, IsSegment, Counter, Lines;
    var files' := Touch(files, Name(n + 1));
    assert Name(n + 1) !in files;
    forall c | 1 <= c <= n + 1
      ensures Name(c) in files' && files'[Name(c)] == Lines(crc, (segs + [[]])[c - 1])
    {
      if c <= n { assert Name(c) in files; }
    }
  }

  // ------------------------------------------------------------ rotation bounds

  /** What happens to the segments when only a writer is at work. */
  datatype Event = Append(photo: Photo) | Reopen

  function EndSize(crc: Checksum, segs: seq<seq<Photo>>): nat
    requires segs != []
  {
    |Lines(crc, segs[|segs| - 1])|
  }

  /** Rotate if the active segment has reached the limit. */
  function Settle(crc: Checksum, limit: nat, segs: seq<seq<Photo>>): seq<seq<Photo>>
    requires segs != []
  {
    if EndSize(crc, segs) >= limit then segs + [[]] else segs
  }

  function Happens(crc: Checksum, limit: nat, segs: seq<seq<Photo>>, e: Event): seq<seq<Photo>>
    requires segs != []
  {
    match e
    case Append(p) => Settle(crc, limit, AppendTo(segs, p))
    case Reopen => Settle(crc, limit, segs)
  }

  function HappenAll(crc: Checksum, limit: nat, segs: seq<seq<Photo>>, es: seq<Event>): (r: seq<seq<Photo>>)
    requires segs != []
    ensures |r| >= |segs|
    decreases |es|
  {
    if es == [] then segs else HappenAll(crc, limit, Happens(crc, limit, segs, es[0]), es[1..])
  }

  /** What the appends among the events returned. */
  function Returned(crc: Checksum, limit: nat, segs: seq<seq<Photo>>, es: seq<Event>): seq<PhotoMeta>
    requires segs != []
    decreases |es|
  {
    if es == [] then []
    else
      var n := |segs| - 1;
      var head := match es[0]
        case Append(p) => [Place(p, Name(n + 1), |Lines(crc, segs[n])|, |Line(crc, p)|)]
        case Reopen => [];
      head + Returned(crc, limit, Happens(crc, limit, segs, es[0]), es[1..])
  }

  lemma SettleReads(crc: Checksum, limit: nat, segs: seq<seq<Photo>>)
    requires segs != []
    ensures AllLocated(crc, Settle(crc, limit, segs), 0) == AllLocated(crc, segs, 0)
  {
    hide AllLocated, EndSize;
    AllLocatedAfterRotate(crc, segs, 0);
  }

  lemma OneAppendReads(crc: Checksum, segs: seq<seq<Photo>>, p: Photo)
    requires segs != []
    ensures AllLocated(crc, AppendTo(segs, p), 0) ==
            AllLocated(crc, segs, 0) + [Place(p, Name(|segs|), |Lines(crc, segs[|segs| - 1])|, |Line(crc, p)|)]
  {
    hide AllLocated, Lines, Line, Name, AppendTo;
    AllLocatedAfterAppend(crc, segs, p, 0);
  }

  lemma NeverShrinks(crc: Checksum, limit: nat, segs: seq<seq<Photo>>, e: Event)
    requires segs != []
    ensures |Happens(crc, limit, segs, e)| >= |segs|
    ensures e.Append? ==> |AppendTo(segs, e.photo)| == |segs|
  {
  }

  /** Append/replay agreement over any sequence of appends and reopenings, across any
      rotations: what a full replay reads is what was there before, and then exactly
      what the appends returned, in their order. */
  lemma {:induction false} ReplayIsWhatAppendReturned(crc: Checksum, limit: nat, segs: seq<seq<Photo>>, es: seq<Event>)
    requires segs != []
    ensures AllLocated(crc, HappenAll(crc, limit, segs, es), 0) ==
            AllLocated(crc, segs, 0) + Returned(crc, limit, segs, es)
    decreases |es|
  {
    hide AllLocated, Lines, Line, Name, AppendTo, Settle;
    if es != [] {
      var next := Happens(crc, limit, segs, es[0]);
      NeverShrinks(crc, limit, segs, es[0]);
      ReplayIsWhatAppendReturned(crc, limit, next, es[1..]);
      match es[0]
      case Append(p) =>
        var m := Place(p, Name(|segs|), |Lines(crc, segs[|segs| - 1])|, |Line(crc, p)|);
        OneAppendReads(crc, segs, p);
        SettleReads(crc, limit, AppendTo(segs, p));
        Associate(AllLocated(crc, segs, 0), [m], Returned(crc, limit, next, es[1..]));
      case Reopen =>
        SettleReads(crc, limit, segs);
    }
  }

  /** The same on the bytes of the directory that these events leave. */
  lemma ReplayAllIsWhatAppendReturned(
      crc: Checksum, limit: nat, segs: seq<seq<Photo>>, es: seq<Event>, before: Directory, after: Directory)
    requires segs != [] && Holds(crc, before, segs) && Holds(crc, after, HappenAll(crc, limit, segs, es))
    ensures ReplayAll(crc, after) == ReplayAll(crc, before) + Returned(crc, limit, segs, es)
  {
    hide Holds, HappenAll, Returned, ReplayAll, AllLocated;
    ReplayIsWhatAppendReturned(crc, limit, segs, es);
    ReplayAllOfHolds(crc, before, segs);
    ReplayAllOfHolds(crc, after, HappenAll(crc, limit, segs, es));
  }

  /** The record that filled the segment was needed to fill it. */
  ghost predicate JustFull(crc: Checksum, limit: nat, ps: seq<Photo>) {
    && ps != []
    && |Lines(crc, ps)| >= limit
    && |Lines(crc, ps)| < limit + |Line(crc, ps[|ps| - 1])|
  }

  ghost predicate Bounded(crc: Checksum, limit: nat, segs: seq<seq<Photo>>) {
    && segs != []
    && EndSize(crc, segs) < limit
    && forall j :: 0 <= j < |segs| - 1 ==> JustFull(crc, limit, segs[j])
  }

  lemma AppendKeepsBounds(crc: Checksum, limit: nat, segs: seq<seq<Photo>>, p: Photo)
    requires limit > 0 && Bounded(crc, limit, segs)
    ensures Bounded(crc, limit, Happens(crc, limit, segs, Append(p)))
  {
    hide Line, Lines;
    var n := |segs| - 1;
    LinesSnoc(crc, segs[n], p);
    LinesOfNothing(crc);
    var segs' := AppendTo(segs, p);
    assert (segs[n] + [p])[|segs[n] + [p]| - 1] == p;
    if EndSize(crc, segs') >= limit {
      assert JustFull(crc, limit, segs'[n]);
      forall j | 0 <= j < |segs'| ensures JustFull(crc, limit, (segs' + [[]])[j]) {
        if j < n { assert JustFull(crc, limit, segs[j]); }
      }
    }
  }

  /** Over every sequence of appends and reopenings of a log within the bounds: the active
      segment stays below the limit, every closed segment reached it, and did so only
      with its last record.  Reopening changes nothing. */
  lemma {:induction false} RotationBounds(crc: Checksum, limit: nat, segs: seq<seq<Photo>>, es: seq<Event>)
    requires limit > 0 && Bounded(crc, limit, segs)
    ensures Bounded(crc, limit, HappenAll(crc, limit, segs, es))
    decreases |es|
  {
    hide Line, Lines;
    if es != [] {
      if es[0].Append? { AppendKeepsBounds(crc, limit, segs, es[0].photo); }
      RotationBounds(crc, limit, Happens(crc, limit, segs, es[0]), es[1..]);
    }
  }

  lemma EmptyLogIsBounded(crc: Checksum, limit: nat)
    requires limit > 0
    ensures Bounded(crc, limit, [[]])
  {
  }

  // ------------------------------------------- the class on a directory that holds

  /** Opening a log that holds `segs` opens the last segment, or the next one if the
      last is full; opening an empty log starts the first. */
  lemma OpenOfHolds(crc: Checksum, limit: nat, files: Directory, highest: nat, segs: seq<seq<Photo>>)
    requires Holds(crc, files, segs) && IsHighest(files, highest) && |segs| < MAX_COUNTER
    ensures var counter := OpenCounter(files, highest, limit);
            var segs' := if segs == [] then [[]] else Settle(crc, limit, segs);
            counter == |segs'| && Holds(crc, Touch(files, Name(counter)), segs')
  {
    hide Name, IsSegment, Counter, Lines;
    if segs == [] {
      assert highest == 0;
      HoldsAfterRotate(crc, files, segs);
      assert segs + [[]] == [[]];
    } else {
      var n := |segs|;
      assert Name(n) in files && files[Name(n)] == Lines(crc, segs[n - 1]);
      NameRoundTrip(n);
      assert highest == n;
      if EndSize(crc, segs) >= limit { HoldsAfterRotate(crc, files, segs); }
    }
  }

  /** What `append` does to a log that holds `segs`. */
  lemma AppendOfHolds(crc: Checksum, limit: nat, files: Directory, segs: seq<seq<Photo>>, p: Photo)
    requires Holds(crc, files, segs) && segs != [] && |segs| < MAX_COUNTER
    ensures var n := |segs|;
            && Name(n) in files && files[Name(n)] == Lines(crc, segs[n - 1])
            && var written := Extend(files, Name(n), Line(crc, p));
               var segs' := AppendTo(segs, p);
               && Holds(crc, written, segs') && |written[Name(n)]| == EndSize(crc, segs')
               && (EndSize(crc, segs') >= limit ==> Holds(crc, Touch(written, Name(n + 1)), segs' + [[]]))
  {
    hide Name, IsSegment, Counter, Lines, Line;
    var n := |segs|;
    HoldsAfterAppend(crc, files, segs, p);
    var written := Extend(files, Name(n), Line(crc, p));
    var segs' := AppendTo(segs, p);
    assert Name(n) in written && written[Name(n)] == Lines(crc, segs'[n - 1]);
    HoldsAfterRotate(crc, written, segs');
  }

  // ---------------------------------------------------------------- the class

  class Writer {
    const crc: Checksum
    const disk: Disk
    const maxSegmentBytes: nat
    var isOpen: bool
    var segmentCounter: nat
    var segmentName: string
    var appendCount: nat

    ghost predicate Valid()
      reads this, disk
    {
      segmentName == Name(segmentCounter) && (isOpen ==> segmentName in disk.logs)
    }

    /** Opens the log; the exclusive lock is taken for granted. */
    constructor (crc: Checksum, disk: Disk, maxSegmentBytes: nat)
      modifies disk`logs
      ensures Valid() && isOpen && appendCount == 0
      ensures this.crc == crc && this.disk == disk && this.maxSegmentBytes == maxSegmentBytes
      ensures exists highest :: IsHighest(old(disk.logs), highest) &&
                segmentCounter == OpenCounter(old(disk.logs), highest, maxSegmentBytes)
      ensures disk.logs == Touch(old(disk.logs), segmentName)
    {
      this.crc, this.disk, this.maxSegmentBytes := crc, disk, maxSegmentBytes;
      isOpen, segmentCounter, segmentName, appendCount := false, 0, Name(0), 0;
      new;
      OpenActiveSegment();
    }

    /** The highest segment counter in the directory, 0 if there is no segment. */
    method DiscoverLatestSegment() returns (highest: nat)
      ensures IsHighest(disk.logs, highest)
    {
      highest := 0;
      var names := disk.logs.Keys;
      while names != {}
        invariant names <= disk.logs.Keys
        invariant forall n :: n in disk.logs && n !in names && IsSegment(n) ==> Counter(n) <= highest
        invariant highest == 0 || exists n :: n in disk.logs && IsSegment(n) && Counter(n) == highest
        decreases |names|
      {
        hide Name;
        var name :| name in names;
        names := names - {name};
        if IsSegment(name) && Counter(name) > highest {
          highest := Counter(name);
        }
      }
    }

    method OpenActiveSegment()
      modifies this, disk`logs
      ensures Valid() && isOpen && appendCount == old(appendCount)
      ensures exists highest :: IsHighest(old(disk.logs), highest) &&
                segmentCounter == OpenCounter(old(disk.logs), highest, maxSegmentBytes)
      ensures disk.logs == Touch(old(disk.logs), segmentName)
    {
      hide Name;
      var existing := DiscoverLatestSegment();
      if existing == 0 {
        segmentCounter := 1;
      } else {
        segmentCounter := existing;
        var path := Name(segmentCounter);
        if path in disk.logs && |disk.logs[path]| >= maxSegmentBytes {
          segmentCounter := existing + 1;
        }
      }
      segmentName := Name(segmentCounter);
      disk.logs := Touch(disk.logs, segmentName);
      isOpen := true;
    }

    method RotateSegment()
      requires Valid() && isOpen
      modifies this, disk`logs
      ensures Valid() && isOpen && appendCount == old(appendCount)
      ensures segmentCounter == old(segmentCounter) + 1
      ensures disk.logs == Touch(old(disk.logs), Name(old(segmentCounter) + 1))
    {
      segmentCounter := segmentCounter + 1;
      segmentName := Name(segmentCounter);
      disk.logs := Touch(disk.logs, segmentName);
    }

    /** Appends one record, and rotates if the segment has reached the limit.  A closed
        writer refuses. */
    method Append(meta: PhotoMeta) returns (updated: Option<PhotoMeta>)
      requires Valid()
      modifies this, disk`logs
      ensures Valid() && isOpen == old(isOpen)
      ensures !old(isOpen) ==> updated == None && disk.logs == old(disk.logs)
      ensures !old(isOpen) ==> segmentCounter == old(segmentCounter) && appendCount == old(appendCount)
      ensures old(isOpen) ==>
                && updated == Some(Place(meta.photo, old(segmentName),
                                         |old(disk.logs[segmentName])|, |Line(crc, meta.photo)|))
                && appendCount == old(appendCount) + 1
                && var written := Extend(old(disk.logs), old(segmentName), Line(crc, meta.photo));
                   if |written[old(segmentName)]| >= maxSegmentBytes then
                     segmentCounter == old(segmentCounter) + 1 && disk.logs == Touch(written, Name(segmentCounter))
                   else
                     segmentCounter == old(segmentCounter) && disk.logs == written
      ensures old(isOpen) ==>
                var m, line, segment := updated.value, Line(crc, meta.photo), old(segmentName);
                && m.photo == meta.photo && m.segmentId == segment
                && m.offset == |old(disk.logs)[segment]| && m.length == |line|
                && segment in disk.logs && disk.logs[segment] == old(disk.logs)[segment] + line
                && disk.logs[segment][m.offset..][..m.length] == line
      ensures forall name | name in old(disk.logs) && name != old(segmentName) ::
                name in disk.logs && disk.logs[name] == old(disk.logs)[name]
      ensures old(isOpen) && segmentCounter == old(segmentCounter) ==>
                ActiveSegmentOffset() == updated.value.offset + updated.value.length
    {
      hide Name, Line;
      if !isOpen { return None; }
      var line := Line(crc, meta.photo);
      var offset := |disk.logs[segmentName]|;
      disk.logs := disk.logs[segmentName := disk.logs[segmentName] + line];
      updated := Some(Place(meta.photo, segmentName, offset, |line|));
      appendCount := appendCount + 1;
      if |disk.logs[segmentName]| >= maxSegmentBytes {
        RotateSegment();
      }
    }

    /** Current byte offset in the active segment; 0 when closed. */
    function ActiveSegmentOffset(): nat
      requires Valid()
      reads this, disk
    {
      if isOpen then |disk.logs[segmentName]| else 0
    }

    method Close()
      requires Valid()
      modifies this
      ensures Valid() && !isOpen && segmentCounter == old(segmentCounter) && appendCount == old(appendCount)
      ensures ActiveSegmentOffset() == 0
    {
      isOpen := false;
    }
  }
}
