/** The compactor as the mutable object behind the admin route. */
module Compactor {
  import opened Basics
  import opened Models
  import opened Order
  import opened Names
  import opened LogFormat
  import opened LogReader
  import opened LogReplay
  import opened Index
  import opened Compaction
  import opened Operations
  import opened Storage
  import opened IndexStore
  import opened LogWriter

  // ------------------------------------------------------------ specification

  function TempName(segment: string): string {
    segment + ".compact.tmp"
  }

  /** The directory after the temporary file was written and renamed into place. */
  function Rewrite(crc: Checksum, primary: Primary, files: Directory, segment: string): Directory
    requires segment in files
  {
    (files - {TempName(segment)})[segment := CompactedFile(crc, primary, segment, files[segment])]
  }

  /** The segments whose compaction raises an error, each with what it leaves in the
      temporary file, if it came that far. */
  type Failures = map<string, Option<Bytes>>

  /** The directory after one attempt. */
  function Attempt(crc: Checksum, primary: Primary, failures: Failures, files: Directory, segment: string): Directory
    requires segment in files
  {
    if segment !in failures then Rewrite(crc, primary, files, segment)
    else
      match failures[segment]
      case None => files
      case Some(text) => files[TempName(segment) := text]
  }

  /** The directory after all listed segments but the active one were tried; a name that
      is not a file is skipped. */
  function RewriteEach(
      crc: Checksum, primary: Primary, failures: Failures, active: string, files: Directory, names: seq<string>)
    : Directory
    decreases |names|
  {
    if names == [] then files
    else if names[0] == active || names[0] !in files then
      RewriteEach(crc, primary, failures, active, files, names[1..])
    else
      RewriteEach(crc, primary, failures, active, Attempt(crc, primary, failures, files, names[0]), names[1..])
  }

  /** No segment is closed. */
  predicate OnlyActive(files: Directory, active: string) {
    forall i :: 0 <= i < |Listing(files.Keys)| ==> Listing(files.Keys)[i] == active
  }

  lemma Discard(files: Directory, name: string, text: Bytes)
    ensures files[name := text] - {name} == files - {name}
  {
  }

  lemma AttemptIs(crc: Checksum, primary: Primary, failures: Failures, files: Directory, segment: string)
    requires segment in files
    ensures Attempt(crc, primary, failures, files, segment) ==
            if segment !in failures then Rewrite(crc, primary, files, segment)
            else if failures[segment].None? then files
            else files[TempName(segment) := failures[segment].value]
  {
    hide Rewrite, TempName;
  }

  lemma TempNameIs(segment: string)
    ensures TempName(segment) == segment + ".compact.tmp" != segment
  {
  }

  lemma ReportIs(crc: Checksum, primary: Primary, segment: string, before: Bytes, live: seq<Photo>, count: nat)
    requires live == Compacted(primary, segment, Scan(crc, segment, before, 0))
    requires count == |Scan(crc, segment, before, 0)|
    ensures Report(crc, primary, segment, before) == Done(segment, count, |live|, |before|, |Lines(crc, live)|)
  {
    hide Scan, Lines, Compacted;
  }

  /** Writing the temporary file and renaming it into place. */
  lemma RewriteIs(
      crc: Checksum, primary: Primary, files: Directory, segment: string, live: seq<Photo>, text: Bytes)
    requires segment in files && text == Lines(crc, live)
    requires live == Compacted(primary, segment, Scan(crc, segment, files[segment], 0))
    ensures (files[TempName(segment) := text] - {TempName(segment)})[segment := text] ==
            Rewrite(crc, primary, files, segment)
  {
    hide Scan, Lines, TempName, Compacted;
    Discard(files, TempName(segment), text);
  }

  lemma RewriteOne(
      crc: Checksum, primary: Primary, failures: Failures, active: string, files: Directory, names: seq<string>, i: nat)
    requires i < |names|
    ensures RewriteEach(crc, primary, failures, active, files, names[i..]) ==
            if names[i] == active || names[i] !in files then
              RewriteEach(crc, primary, failures, active, files, names[i + 1..])
            else
              RewriteEach(crc, primary, failures, active, Attempt(crc, primary, failures, files, names[i]),
                names[i + 1..])
  {
    hide Attempt;
    assert names[i..][0] == names[i] && names[i..][1..] == names[i + 1..];
  }

  /** An attempt never removes the writer's file. */
  lemma KeepsActive(
      crc: Checksum, primary: Primary, failures: Failures, files: Directory, segment: string, counter: nat)
    ensures segment in files && Name(counter) in files ==>
              Name(counter) in Attempt(crc, primary, failures, files, segment)
  {
    TempIsNoName(segment, counter);
    hide Name, TempName, CompactedFile;
  }

  // -------------------------------------------- on a directory that holds a log

  /** A temporary file never has the name of a segment, of any counter. */
  lemma TempIsNoName(segment: string, counter: nat)
    ensures TempName(segment) != Name(counter)
  {
    var t, n := TempName(segment), Name(counter);
    assert t[|t| - 1] == 'p' && n[|n| - 1] == 'g';
  }

  lemma RewrittenFile(crc: Checksum, primary: Primary, segs: seq<seq<Photo>>, j: nat)
    requires j < |segs|
    ensures CompactedFile(crc, primary, Name(j + 1), Lines(crc, segs[j])) ==
            Lines(crc, CompactedSegment(crc, primary, segs, j))
  {
    hide Name, Lines, Located, Scan, Compacted;
    ScanLines(crc, Name(j + 1), segs[j], 0);
  }

  /** Replacing the file of one segment, and removing a file that is no segment. */
  lemma HoldsUpdated(crc: Checksum, files: Directory, segs: seq<seq<Photo>>, j: nat, ps: seq<Photo>, junk: string)
    requires Holds(crc, files, segs) && j < |segs|
    requires forall c :: 1 <= c <= |segs| ==> junk != Name(c)
    ensures Name(j + 1) in files && files[Name(j + 1)] == Lines(crc, segs[j])
    ensures Holds(crc, (files - {junk})[Name(j + 1) := Lines(crc, ps)], segs[j := ps])
  {
    var n, text := j + 1, Lines(crc, ps);
    hide Name, IsSegment, Counter, Lines;
    assert Name(n) in files && files[Name(n)] == Lines(crc, segs[n - 1]);
    var files' := (files - {junk})[Name(n) := text];
    var segs' := segs[j := ps];
    forall c | 1 <= c <= |segs| ensures Name(c) in files' && files'[Name(c)] == Lines(crc, segs'[c - 1]) {
      assert Name(c) in files && files[Name(c)] == Lines(crc, segs[c - 1]);
      if c == n {
        assert segs'[c - 1] == ps;
      } else {
        if Name(c) == Name(n) { NameInjective(c, n); }
        assert segs'[c - 1] == segs[c - 1];
      }
    }
    assert forall x :: x in files' ==> x in files;
  }

  lemma HoldsAfterRewrite(crc: Checksum, primary: Primary, files: Directory, segs: seq<seq<Photo>>, j: nat)
    requires Holds(crc, files, segs) && j < |segs|
    ensures Name(j + 1) in files
    ensures Holds(crc, Rewrite(crc, primary, files, Name(j + 1)), segs[j := CompactedSegment(crc, primary, segs, j)])
  {
    var junk := TempName(Name(j + 1));
    forall c | 1 <= c <= |segs| ensures junk != Name(c) {
      TempIsNoName(Name(j + 1), c);
    }
    RewrittenFile(crc, primary, segs, j);
    hide Name, Lines, CompactedSegment, CompactedFile, TempName, Holds;
    HoldsUpdated(crc, files, segs, j, CompactedSegment(crc, primary, segs, j), junk);
  }

  predicate FailsAt(failures: Failures, j: nat) {
    Name(j + 1) in failures
  }

  /** The segments, counted from 0, that a pass over `n` of them skips. */
  function SkippedSegments(failures: Failures, n: nat): set<nat> {
    set j: nat | j < n && FailsAt(failures, j)
  }

  /** A temporary file is no segment. */
  lemma HoldsBesideTemp(crc: Checksum, files: Directory, segs: seq<seq<Photo>>, segment: string, text: Bytes)
    requires Holds(crc, files, segs)
    ensures Holds(crc, files[TempName(segment) := text], segs)
  {
    forall c | 1 <= c <= |segs| ensures TempName(segment) != Name(c) {
      TempIsNoName(segment, c);
    }
    TempIsNoSegment(segment);
    hide Name, Lines, TempName, IsSegment, Counter;
    var files' := files[TempName(segment) := text];
    forall c | 1 <= c <= |segs| ensures Name(c) in files' && files'[Name(c)] == Lines(crc, segs[c - 1]) {
      assert Name(c) in files;
    }
  }

  lemma TempIsNoSegment(segment: string)
    ensures !IsSegment(TempName(segment))
  {
    var t := TempName(segment);
    assert t[|t| - 1] == 'p' && SUFFIX[3] == 'g';
    assert |t| == 16 ==> t[12..][3] == 'p';
  }

  lemma HoldsAfterAttempt(
      crc: Checksum, primary: Primary, failures: Failures, files: Directory, segs: seq<seq<Photo>>, j: nat)
    requires Holds(crc, files, segs) && j < |segs|
    ensures Name(j + 1) in files
    ensures Holds(crc, Attempt(crc, primary, failures, files, Name(j + 1)),
                  if FailsAt(failures, j) then segs else segs[j := CompactedSegment(crc, primary, segs, j)])
  {
    HoldsAfterRewrite(crc, primary, files, segs, j);
    hide Holds, Name, Rewrite, TempName, CompactedSegment;
    if FailsAt(failures, j) && failures[Name(j + 1)].Some? {
      HoldsBesideTemp(crc, files, segs, Name(j + 1), failures[Name(j + 1)].value);
    }
  }

  lemma {:induction false} HoldsAfterEach(
      crc: Checksum, primary: Primary, failures: Failures, files: Directory, segs: seq<seq<Photo>>, k: nat)
    requires segs != [] && k < |segs| && |segs| <= MAX_COUNTER
    requires var skipped := SkippedSegments(failures, |segs| - 1);
             Holds(crc, files, CompactedUpTo(crc, primary, segs, k, skipped))
    ensures var skipped := SkippedSegments(failures, |segs| - 1);
            Holds(crc, RewriteEach(crc, primary, failures, Name(|segs|), files, NameRange(k + 1, |segs| + 1)),
                  CompactedUpTo(crc, primary, segs, |segs| - 1, skipped))
    decreases |segs| - k
  {
    hide *;
    var n, skipped := |segs|, SkippedSegments(failures, |segs| - 1);
    if k == n - 1 {
      TryActive(crc, primary, failures, n, files);
    } else {
      SkipsAt(failures, n - 1, k);
      HoldsAfterAttempt(crc, primary, failures, files, CompactedUpTo(crc, primary, segs, k, skipped), k);
      OneMoreCompacted(crc, primary, segs, k, skipped);
      TryNext(crc, primary, failures, n, files, k);
      HoldsAfterEach(crc, primary, failures, Attempt(crc, primary, failures, files, Name(k + 1)), segs, k + 1);
    }
  }

  lemma SkipsAt(failures: Failures, n: nat, k: nat)
    requires k < n
    ensures k in SkippedSegments(failures, n) <==> FailsAt(failures, k)
  {
    hide FailsAt;
  }

  lemma TryActive(crc: Checksum, primary: Primary, failures: Failures, n: nat, files: Directory)
    ensures RewriteEach(crc, primary, failures, Name(n), files, NameRange(n, n + 1)) == files
  {
    hide Name, Attempt;
    assert NameRange(n, n + 1) == [Name(n)] && [Name(n)][1..] == [];
  }

  lemma TryNext(crc: Checksum, primary: Primary, failures: Failures, n: nat, files: Directory, k: nat)
    requires k + 1 < n <= MAX_COUNTER && Name(k + 1) in files
    ensures RewriteEach(crc, primary, failures, Name(n), files, NameRange(k + 1, n + 1)) ==
            RewriteEach(crc, primary, failures, Name(n), Attempt(crc, primary, failures, files, Name(k + 1)),
                        NameRange(k + 2, n + 1))
  {
    hide Name, Attempt, NameRange;
    NameRangeTail(k + 1, n + 1);
    if Name(k + 1) == Name(n) { NameInjective(k + 1, n); }
  }

  lemma OneMoreCompacted(crc: Checksum, primary: Primary, segs: seq<seq<Photo>>, k: nat, skipped: set<nat>)
    requires k < |segs|
    ensures var r := CompactedUpTo(crc, primary, segs, k, skipped);
            CompactedUpTo(crc, primary, segs, k + 1, skipped) ==
            if k in skipped then r else r[k := CompactedSegment(crc, primary, r, k)]
  {
    hide Compacted, Located, Name;
  }

  /** What the whole pass does to a directory that holds `segs`: it compacts the closed
      segments but for those that fail. */
  lemma HoldsAfterPass(crc: Checksum, primary: Primary, failures: Failures, files: Directory, segs: seq<seq<Photo>>)
    requires segs != [] && Holds(crc, files, segs)
    ensures var skipped := SkippedSegments(failures, |segs| - 1);
            Holds(crc, RewriteEach(crc, primary, failures, Name(|segs|), files, Listing(files.Keys)),
                  CompactedUpTo(crc, primary, segs, |segs| - 1, skipped))
  {
    hide Name, CompactedSegment, Listing, RewriteEach, NameRange, SkippedSegments;
    ListingOfHolds(crc, files, segs);
    HoldsAfterEach(crc, primary, failures, files, segs, 0);
  }

  // -------------------------------------------------------------- what it reports

  /** `CompactionResult`, or why there is none. */
  datatype Outcome =
    | Done(segment: string, recordsBefore: nat, recordsAfter: nat, bytesBefore: nat, bytesAfter: nat)
    | ActiveSegment
    | NotFound
    | Failed

  /** The result for one segment with the bytes `before`. */
  function Report(crc: Checksum, primary: Primary, segment: string, before: Bytes): Outcome {
    var records := Scan(crc, segment, before, 0);
    Done(segment, |records|, |Compacted(primary, segment, records)|, |before|,
         |CompactedFile(crc, primary, segment, before)|)
  }

  /** The results of a pass over the listed names, in their order: one for each closed
      segment that does not fail. */
  function Reports(
      crc: Checksum, primary: Primary, failures: Failures, active: string, files: Directory, names: seq<string>)
    : seq<Outcome>
  {
    if names == [] then []
    else
      var n := |names| - 1;
      var name := names[n];
      Reports(crc, primary, failures, active, files, names[..n]) +
      (if name == active || name !in files || name in failures then [] else [Report(crc, primary, name, files[name])])
  }

  lemma ReportsSnoc(
      crc: Checksum, primary: Primary, failures: Failures, active: string, files: Directory, names: seq<string>, i: nat)
    requires i < |names|
    ensures var name := names[i];
            Reports(crc, primary, failures, active, files, names[..i + 1]) ==
            Reports(crc, primary, failures, active, files, names[..i]) +
            (if name == active || name !in files || name in failures then []
             else [Report(crc, primary, name, files[name])])
  {
    hide Report;
    assert names[..i + 1][..i] == names[..i] && names[..i + 1][i] == names[i];
  }

  /** An attempt changes no other segment. */
  lemma AttemptKeepsOthers(
      crc: Checksum, primary: Primary, failures: Failures, files: Directory, segment: string, other: string)
    requires segment in files && other != segment && IsSegment(other)
    ensures var files' := Attempt(crc, primary, failures, files, segment);
            (other in files' <==> other in files) && (other in files ==> files'[other] == files[other])
  {
    TempIsNoSegment(segment);
    hide TempName, IsSegment, CompactedFile;
  }

  /** The listing names segments, each once. */
  lemma ListingIsDistinct(directory: set<string>)
    ensures forall i, j | 0 <= i < j < |Listing(directory)| :: Listing(directory)[i] != Listing(directory)[j]
    ensures forall i | 0 <= i < |Listing(directory)| :: IsSegment(Listing(directory)[i])
  {
    hide IsSegment, Sorted;
    var s := set n | n in directory && IsSegment(n);
    SortedIsAscending(s);
    forall i | 0 <= i < |Sorted(s)| ensures IsSegment(Sorted(s)[i]) {
      assert Sorted(s)[i] in Sorted(s);
    }
  }

  lemma {:induction false} NothingToReport(
      crc: Checksum, primary: Primary, failures: Failures, active: string, files: Directory, names: seq<string>)
    requires forall i | 0 <= i < |names| :: names[i] == active
    ensures Reports(crc, primary, failures, active, files, names) == []
    decreases |names|
  {
    if names != [] { NothingToReport(crc, primary, failures, active, files, names[..|names| - 1]); }
  }

  function ReportAt(crc: Checksum, primary: Primary, segs: seq<seq<Photo>>, j: nat): Outcome
    requires j < |segs|
  {
    Report(crc, primary, Name(j + 1), Lines(crc, segs[j]))
  }

  /** What a pass over `k` closed segments reports of them. */
  function PassReports(crc: Checksum, primary: Primary, segs: seq<seq<Photo>>, k: nat, skipped: set<nat>): seq<Outcome>
    requires k <= |segs|
  {
    if k == 0 then []
    else
      PassReports(crc, primary, segs, k - 1, skipped) +
      (if k - 1 in skipped then [] else [ReportAt(crc, primary, segs, k - 1)])
  }

  lemma NameRangeSnoc(k: nat)
    ensures NameRange(1, k + 2)[..k] == NameRange(1, k + 1) && NameRange(1, k + 2)[k] == Name(k + 1)
    ensures |NameRange(1, k + 2)| == k + 1
  {
    hide Name;
  }

  lemma {:induction false} ReportsOfHolds(
      crc: Checksum, primary: Primary, failures: Failures, files: Directory, segs: seq<seq<Photo>>, k: nat)
    requires Holds(crc, files, segs) && k < |segs|
    ensures Reports(crc, primary, failures, Name(|segs|), files, NameRange(1, k + 1)) ==
            PassReports(crc, primary, segs, k, SkippedSegments(failures, |segs| - 1))
  {
    hide *;
    if k == 0 {
      NoReports(crc, primary, failures, Name(|segs|), files, segs, SkippedSegments(failures, |segs| - 1));
    } else {
      var n, names := |segs|, NameRange(1, k + 1);
      ReportsOfHolds(crc, primary, failures, files, segs, k - 1);
      HoldsBound(crc, files, segs);
      HoldsFile(crc, files, segs, k - 1);
      NameRangeSnoc(k - 1);
      ReportsSnoc(crc, primary, failures, Name(n), files, names, k - 1);
      assert names[..k] == names;
      SkipsAt(failures, n - 1, k - 1);
      if Name(k) == Name(n) { NameInjective(k, n); }
      OneMoreReport(crc, primary, failures, segs, k, SkippedSegments(failures, n - 1));
    }
  }

  lemma NoReports(
      crc: Checksum, primary: Primary, failures: Failures, active: string, files: Directory, segs: seq<seq<Photo>>,
      skipped: set<nat>)
    ensures Reports(crc, primary, failures, active, files, NameRange(1, 1)) == [] ==
            PassReports(crc, primary, segs, 0, skipped)
  {
    hide Name;
    assert NameRange(1, 1) == [];
  }

  lemma OneMoreReport(
      crc: Checksum, primary: Primary, failures: Failures, segs: seq<seq<Photo>>, k: nat, skipped: set<nat>)
    requires 0 < k <= |segs| && (k - 1 in skipped <==> FailsAt(failures, k - 1))
    ensures PassReports(crc, primary, segs, k, skipped) ==
            PassReports(crc, primary, segs, k - 1, skipped) +
            (if Name(k) in failures then [] else [Report(crc, primary, Name(k), Lines(crc, segs[k - 1]))])
  {
    hide Name, Report, Lines;
  }

  /** What a pass over a directory that holds `segs` reports. */
  lemma ReportsAfterPass(crc: Checksum, primary: Primary, failures: Failures, files: Directory, segs: seq<seq<Photo>>)
    requires Holds(crc, files, segs) && segs != []
    ensures Reports(crc, primary, failures, Name(|segs|), files, Listing(files.Keys)) ==
            PassReports(crc, primary, segs, |segs| - 1, SkippedSegments(failures, |segs| - 1))
  {
    var n := |segs|;
    ListingOfHolds(crc, files, segs);
    ReportsOfHolds(crc, primary, failures, files, segs, n - 1);
    NameRangeSnoc(n - 1);
    hide Name, Listing, Report, Holds, PassReports, NameRange, SkippedSegments;
  }

  lemma ReportOf(crc: Checksum, primary: Primary, segs: seq<seq<Photo>>, j: nat)
    requires j < |segs|
    ensures ReportAt(crc, primary, segs, j) ==
            Done(Name(j + 1), |segs[j]|, |CompactedSegment(crc, primary, segs, j)|, |Lines(crc, segs[j])|,
                 |Lines(crc, CompactedSegment(crc, primary, segs, j))|)
  {
    hide Name, Lines, Scan, Compacted, Located;
    ScanLines(crc, Name(j + 1), segs[j], 0);
  }

  /** One entry for each segment that is not skipped. */
  lemma {:induction false} PassReportsCount(
      crc: Checksum, primary: Primary, segs: seq<seq<Photo>>, k: nat, skipped: set<nat>)
    requires k <= |segs|
    ensures |PassReports(crc, primary, segs, k, skipped)| == k - |SkippedBelow(skipped, k)|
  {
    hide ReportAt;
    if k == 0 {
      assert SkippedBelow(skipped, 0) == {};
    } else {
      PassReportsCount(crc, primary, segs, k - 1, skipped);
      if k - 1 in skipped {
        assert SkippedBelow(skipped, k) == SkippedBelow(skipped, k - 1) + {k - 1};
      } else {
        assert SkippedBelow(skipped, k) == SkippedBelow(skipped, k - 1);
      }
    }
  }

  lemma {:induction false} PassReportHas(
      crc: Checksum, primary: Primary, segs: seq<seq<Photo>>, k: nat, skipped: set<nat>, j: nat)
    requires j < k <= |segs| && j !in skipped
    ensures ReportAt(crc, primary, segs, j) in PassReports(crc, primary, segs, k, skipped)
  {
    hide ReportAt;
    if j < k - 1 { PassReportHas(crc, primary, segs, k - 1, skipped, j); }
  }

  lemma {:induction false} PassReportIs(
      crc: Checksum, primary: Primary, segs: seq<seq<Photo>>, k: nat, skipped: set<nat>, i: nat) returns (j: nat)
    requires k <= |segs| && i < |PassReports(crc, primary, segs, k, skipped)|
    ensures j < k && j !in skipped && PassReports(crc, primary, segs, k, skipped)[i] == ReportAt(crc, primary, segs, j)
  {
    hide ReportAt;
    if i < |PassReports(crc, primary, segs, k - 1, skipped)| {
      j := PassReportIs(crc, primary, segs, k - 1, skipped, i);
    } else {
      j := k - 1;
    }
  }

  /** One result is of an earlier segment than the other. */
  predicate Earlier(x: Outcome, y: Outcome) {
    x.Done? && y.Done? && x.segment != y.segment && Le(x.segment, y.segment)
  }

  /** They are in the order of the segments. */
  lemma {:induction false} PassReportsAscend(
      crc: Checksum, primary: Primary, segs: seq<seq<Photo>>, k: nat, skipped: set<nat>, a: nat, b: nat)
    requires k <= |segs| <= MAX_COUNTER && a < b < |PassReports(crc, primary, segs, k, skipped)|
    ensures var rs := PassReports(crc, primary, segs, k, skipped);
            Earlier(rs[a], rs[b])
  {
    hide Name, Lines, Scan, Compacted, CompactedFile, Le;
    if b < |PassReports(crc, primary, segs, k - 1, skipped)| {
      PassReportsAscend(crc, primary, segs, k - 1, skipped, a, b);
    } else {
      var j := PassReportIs(crc, primary, segs, k - 1, skipped, a);
      NameOrder(j + 1, k);
      if Name(j + 1) == Name(k) { NameInjective(j + 1, k); }
    }
  }

  // ---------------------------------------------------------------- the class

  class SegmentCompactor {
    const crc: Checksum
    const disk: Disk
    const index: PhotoIndex
    const writer: Writer

    constructor (crc: Checksum, disk: Disk, index: PhotoIndex, writer: Writer)
      ensures this.crc == crc && this.disk == disk && this.index == index && this.writer == writer
    {
      this.crc, this.disk, this.index, this.writer := crc, disk, index, writer;
    }

    /** Deduplicate: keep the latest record per photo, keys in insertion order. */
    method Latest(records: seq<PhotoMeta>) returns (order: seq<string>, latest: Primary)
      ensures order == FirstSeen(records)
      ensures forall id :: id in latest <==> Last(records, id).Some?
      ensures forall id :: id in latest ==> latest[id] == Last(records, id).value
    {
      order, latest := [], map[];
      var i := 0;
      while i < |records|
        invariant 0 <= i <= |records|
        invariant order == FirstSeen(records[..i])
        invariant forall id :: id in latest <==> Last(records[..i], id).Some?
        invariant forall id :: id in latest ==> latest[id] == Last(records[..i], id).value
      {
        var id := records[i].photo.photoId;
        var upTo := records[..i + 1];
        assert upTo[..|upTo| - 1] == records[..i] && upTo[|upTo| - 1] == records[i];
        FirstSeenSpec(records[..i]);
        assert id in order <==> id in latest;
        if id !in latest { order := order + [id]; }
        latest := latest[id := records[i]];
        i := i + 1;
      }
      assert records[..|records|] == records;
    }

    /** Keep the records that are live and that the index places in this segment. */
    method LiveRecords(segment: string, ghost records: seq<PhotoMeta>, order: seq<string>, latest: Primary)
      returns (live: seq<Photo>)
      requires forall id :: id in latest <==> Last(records, id).Some?
      requires forall id :: id in latest ==> latest[id] == Last(records, id).value
      requires forall id :: id in order ==> id in latest
      ensures live == Kept(index.primary, segment, records, order)
    {
      live := [];
      var i := 0;
      while i < |order|
        invariant 0 <= i <= |order|
        invariant live == Kept(index.primary, segment, records, order[..i])
      {
        var id := order[i];
        var meta := latest[id];
        assert order[..i + 1][..i] == order[..i] && order[..i + 1][i] == id;
        LastIsMember(records, id);
        var current := index.Get(id);
        if !meta.photo.tombstone && current.Some? && current.value.segmentId == segment {
          live := live + [meta.photo];
        }
        i := i + 1;
      }
      assert order[..|order|] == order;
    }

    /** The bytes of the surviving records, each with a fresh checksum. */
    method Encode(live: seq<Photo>) returns (text: Bytes)
      ensures text == Lines(crc, live)
    {
      text := [];
      var i := 0;
      hide *;
      assert live[..0] == [];
      LinesOfNothing(crc);
      while i < |live|
        invariant 0 <= i <= |live|
        invariant text == Lines(crc, live[..i])
      {
        assert live[..i + 1] == live[..i] + [live[i]];
        LinesSnoc(crc, live[..i], live[i]);
        text := text + Line(crc, live[i]);
        i := i + 1;
      }
      assert live[..|live|] == live;
    }

    /** Steps 1 to 3: the surviving records of a segment, and how many there were. */
    method Survivors(segment: string, before: Bytes) returns (live: seq<Photo>, count: nat)
      ensures live == Compacted(index.primary, segment, Scan(crc, segment, before, 0))
      ensures count == |Scan(crc, segment, before, 0)|
    {
      hide Scan, Kept, FirstSeen;
      var records := ReplayFromCursor(crc, segment, before, 0);
      assert before[0..] == before;
      var order, latest := Latest(records);
      FirstSeenSpec(records);
      live := LiveRecords(segment, records, order, latest);
      count := |records|;
    }

    /** Compacts one closed segment: refuses the active one and a missing file, and
        otherwise replaces exactly this file, unless it fails before the rename. */
    method CompactSegment(segment: string, failures: Failures) returns (r: Outcome)
      modifies disk`logs
      ensures r.ActiveSegment? <==> segment == writer.segmentName
      ensures r.NotFound? <==> segment != writer.segmentName && segment !in old(disk.logs)
      ensures r.Failed? <==> segment != writer.segmentName && segment in old(disk.logs) && segment in failures
      ensures r.ActiveSegment? || r.NotFound? ==> disk.logs == old(disk.logs)
      ensures r.Failed? || r.Done? ==>
                && segment in old(disk.logs)
                && disk.logs == Attempt(crc, index.primary, failures, old(disk.logs), segment)
      ensures r.Done? ==>
                && disk.logs == Rewrite(crc, index.primary, old(disk.logs), segment)
                && r == Report(crc, index.primary, segment, old(disk.logs[segment]))
                && r.segment == segment
                && r.recordsBefore == |Scan(crc, segment, old(disk.logs[segment]), 0)|
                && r.recordsAfter == |Compacted(index.primary, segment, Scan(crc, segment, old(disk.logs[segment]), 0))|
                && r.bytesBefore == |old(disk.logs[segment])|
                && r.bytesAfter == |disk.logs[segment]|
                && disk.logs.Keys == old(disk.logs).Keys - {segment + ".compact.tmp"}
      ensures forall name | name in old(disk.logs) && name != segment && name != segment + ".compact.tmp" ::
                name in disk.logs && disk.logs[name] == old(disk.logs)[name]
    {
      hide Scan, Lines, TempName, Compacted, Name, Kept, FirstSeen, Line, Rewrite, CompactedFile, Attempt, Report;
      if segment == writer.segmentName { return ActiveSegment; }
      if segment !in disk.logs { return NotFound; }
      var before := disk.logs[segment];
      var live, count := Survivors(segment, before);
      AttemptIs(crc, index.primary, failures, disk.logs, segment);
      ReportIs(crc, index.primary, segment, before, live, count);
      TempNameIs(segment);
      if segment in failures {
        if failures[segment].Some? {
          disk.logs := disk.logs[TempName(segment) := failures[segment].value];
        }
        return Failed;
      }
      var text := Encode(live);
      RewriteIs(crc, index.primary, disk.logs, segment, live, text);
      disk.logs := disk.logs[TempName(segment) := text];
      disk.logs := (disk.logs - {TempName(segment)})[segment := text];
      r := Done(segment, count, |live|, |before|, |disk.logs[segment]|);
    }

    /** The loop over the listed segments: a failure is logged and skipped. */
    method CompactEach(names: seq<string>, active: string, failures: Failures) returns (outcomes: seq<Outcome>)
      requires writer.Valid() && writer.disk == disk && writer.segmentName == active
      requires forall i, j | 0 <= i < j < |names| :: names[i] != names[j]
      requires forall i | 0 <= i < |names| :: IsSegment(names[i])
      modifies disk`logs
      ensures writer.Valid()
      ensures disk.logs == RewriteEach(crc, index.primary, failures, active, old(disk.logs), names)
      ensures outcomes == Reports(crc, index.primary, failures, active, old(disk.logs), names)
    {
      hide Name, Scan, Lines, Listing, Compacted, Rewrite, Attempt, Report, IsSegment, TempName;
      outcomes := [];
      assert names[0..] == names && names[..0] == [];
      var i := 0;
      while i < |names|
        invariant 0 <= i <= |names|
        invariant writer.Valid()
        invariant outcomes == Reports(crc, index.primary, failures, active, old(disk.logs), names[..i])
        invariant forall k | i <= k < |names| ::
                    (names[k] in disk.logs <==> names[k] in old(disk.logs)) &&
                    (names[k] in disk.logs ==> disk.logs[names[k]] == old(disk.logs)[names[k]])
        invariant RewriteEach(crc, index.primary, failures, active, disk.logs, names[i..]) ==
                  RewriteEach(crc, index.primary, failures, active, old(disk.logs), names)
      {
        RewriteOne(crc, index.primary, failures, active, disk.logs, names, i);
        ReportsSnoc(crc, index.primary, failures, active, old(disk.logs), names, i);
        if names[i] != active {
          KeepsActive(crc, index.primary, failures, disk.logs, names[i], writer.segmentCounter);
          forall k | i < k < |names| && names[i] in disk.logs
            ensures var files := Attempt(crc, index.primary, failures, disk.logs, names[i]);
                    (names[k] in files <==> names[k] in disk.logs) &&
                    (names[k] in disk.logs ==> files[names[k]] == disk.logs[names[k]])
          {
            AttemptKeepsOthers(crc, index.primary, failures, disk.logs, names[i], names[k]);
          }
          var r := CompactSegment(names[i], failures);
          if r.Done? { outcomes := outcomes + [r]; }
        }
        i := i + 1;
      }
      assert names[i..] == [] && names[..i] == names;
    }

    /** Compacts all closed segments in listing order, skipping those that fail, and takes
        a snapshot; without a closed segment it does nothing. */
    method CompactAllClosed(failures: Failures) returns (outcomes: seq<Outcome>)
      requires writer.Valid() && writer.disk == disk && Keyed(index.primary)
      modifies disk`logs, disk`snapshot, writer`appendCount
      ensures writer.Valid()
      ensures outcomes ==
              Reports(crc, index.primary, failures, writer.segmentName, old(disk.logs), Listing(old(disk.logs).Keys))
      ensures OnlyActive(old(disk.logs), writer.segmentName) ==>
                disk.logs == old(disk.logs) && disk.snapshot == old(disk.snapshot) && outcomes == []
      ensures !OnlyActive(old(disk.logs), writer.segmentName) ==>
                && disk.logs == RewriteEach(crc, index.primary, failures, writer.segmentName, old(disk.logs),
                                            Listing(old(disk.logs).Keys))
                && disk.snapshot.Stored?
                && disk.snapshot == Stored(SNAPSHOT_VERSION, writer.segmentName, writer.ActiveSegmentOffset(),
                                           disk.snapshot.records)
                && Lists(disk.snapshot.records, index.primary)
                && writer.appendCount == 0
    {
      hide Listing, Name, Scan, Lines, RewriteEach, Lists, Report;
      outcomes := [];
      ListingIsDistinct(disk.logs.Keys);
      if OnlyActive(disk.logs, writer.segmentName) {
        NothingToReport(crc, index.primary, failures, writer.segmentName, disk.logs, Listing(disk.logs.Keys));
        return;
      }
      outcomes := CompactEach(Listing(disk.logs.Keys), writer.segmentName, failures);
      index.SaveSnapshot(disk, writer.segmentName, writer.ActiveSegmentOffset());
      writer.appendCount := 0;
    }
  }
}
