/** Reopening a segment after a torn write.  The writer appends straight behind
    whatever bytes it finds, so what it appends next is recovered exactly when the
    file ends at a record boundary. */
module TornTail {
  import opened Basics
  import opened Models
  import opened LogFormat
  import opened LogReader

  ghost predicate IsBoundary(crc: Checksum, ps: seq<Photo>, k: nat) {
    exists i :: 0 <= i <= |ps| && k == Start(crc, ps, i)
  }

  lemma CutBytes(b: Bytes, s: nat, n: nat, line: Bytes, tail: Bytes)
    requires s <= |b| && b[s..] == line + tail && n <= |line|
    ensures b[..s + n] == b[..s] + line[..n]
  {
    assert forall j :: s <= j < |b| ==> b[j] == b[s..][j - s];
  }

  /** A cut that is not a boundary lies in the line of one record. */
  lemma CutPosition(crc: Checksum, ps: seq<Photo>, k: nat) returns (i: nat)
    requires k <= |Lines(crc, ps)| && !IsBoundary(crc, ps, k)
    ensures i < |ps| && Start(crc, ps, i) < k < Start(crc, ps, i + 1)
  {
    StartOfEnd(crc, ps);
    hide Start, Lines;
    assert k != Start(crc, ps, |ps|);
    i := PositionInLine(crc, ps, k);
    assert k != Start(crc, ps, i);
  }

  lemma StartOfEnd(crc: Checksum, ps: seq<Photo>)
    ensures Start(crc, ps, |ps|) == |Lines(crc, ps)|
  {
    assert ps[..|ps|] == ps;
  }

  lemma CutInsideLine(crc: Checksum, ps: seq<Photo>, k: nat) returns (i: nat, n: nat)
    requires k <= |Lines(crc, ps)| && !IsBoundary(crc, ps, k)
    ensures i < |ps| && 0 < n <= |Body(crc, ps[i])|
    ensures k == Start(crc, ps, i) + n
    ensures Lines(crc, ps)[..k] == Lines(crc, ps[..i]) + Body(crc, ps[i])[..n]
  {
    i := CutPosition(crc, ps, k);
    n := k - Start(crc, ps, i);
    LineEnding(crc, ps[i]);
    TailInLine(crc, ps, i, 0);
    SplitLines(crc, ps, i);
    BodyOfLine(crc, ps[i], n);
    hide *;
    var line := Line(crc, ps[i]);
    assert line[0..] == line;
    CutBytes(Lines(crc, ps), Start(crc, ps, i), n, line, Lines(crc, ps[i + 1..]));
  }

  lemma BodyOfLine(crc: Checksum, p: Photo, n: nat)
    requires n <= |Body(crc, p)|
    ensures n <= |Line(crc, p)| && Line(crc, p)[..n] == Body(crc, p)[..n]
  {
    hide Body;
  }

  /** A text of two pieces whose only newline is its last byte, with more behind it. */
  lemma JoinedLineLength(a: Bytes, b: Bytes, rest: Bytes)
    requires forall i :: 0 <= i < |a| ==> a[i] != '\n'
    requires b != [] && b[|b| - 1] == '\n'
    requires forall i :: 0 <= i < |b| - 1 ==> b[i] != '\n'
    ensures LineLength((a + b) + rest) == |a + b| && ((a + b) + rest)[..|a + b|] == a + b
  {
    var t := (a + b) + rest;
    var n := |a| + |b| - 1;
    forall i | 0 <= i < n ensures t[i] != '\n' {
      assert t[i] == if i < |a| then a[i] else b[i - |a|];
    }
    assert t[n] == b[|b| - 1];
    LineLengthAt(t, n);
  }

  lemma TornLineLength(crc: Checksum, p: Photo, n: nat, q: Photo, rest: Bytes)
    requires 0 < n <= |Body(crc, p)|
    ensures var torn := Body(crc, p)[..n] + Line(crc, q);
            LineLength(torn + rest) == |torn| && (torn + rest)[..|torn|] == torn
  {
    LineFraming(crc, p);
    LineFraming(crc, q);
    LineEnding(crc, p);
    LineEnding(crc, q);
    BodyOfLine(crc, p, n);
    hide *;
    var a := Body(crc, p)[..n];
    forall i | 0 <= i < |a| ensures a[i] != '\n' {
      assert a[i] == Line(crc, p)[..n][i] == Line(crc, p)[i];
    }
    assert Line(crc, q)[|Body(crc, q)|] == Line(crc, q)[|Body(crc, q)|..][0] == '\n';
    JoinedLineLength(a, Line(crc, q), rest);
  }

  /** The torn line swallows the line appended behind it, and the scan stops there:
      every record appended to this segment after the reopening is lost. */
  lemma ScanBehindTorn(crc: Checksum, segment: string, p: Photo, n: nat, qs: seq<Photo>, pos: nat)
    requires 0 < n <= |Body(crc, p)| && qs != []
    ensures Scan(crc, segment, Body(crc, p)[..n] + Lines(crc, qs), pos) == []
  {
    hide Body, Decode;
    var torn := Body(crc, p)[..n] + Line(crc, qs[0]);
    TornLineLength(crc, p, n, qs[0], Lines(crc, qs[1..]));
    TornThenLineIsBad(crc, p, n, qs[0]);
    Associate(Body(crc, p)[..n], Line(crc, qs[0]), Lines(crc, qs[1..]));
  }

  /** What a replay finds after the segment of `ps` was cut to `k` bytes and `qs` was
      appended behind the cut: everything, if the cut is a boundary; otherwise only
      the records before the torn one, and none of `qs`. */
  lemma ReopenAfterCut(crc: Checksum, segment: string, ps: seq<Photo>, k: nat, qs: seq<Photo>)
    requires k <= |Lines(crc, ps)| && qs != []
    ensures IsBoundary(crc, ps, k) ==>
              Scan(crc, segment, Lines(crc, ps)[..k] + Lines(crc, qs), 0) ==
              Scan(crc, segment, Lines(crc, ps)[..k], 0) + Located(crc, segment, qs, k)
    ensures !IsBoundary(crc, ps, k) ==>
              exists i :: 0 <= i < |ps| && Start(crc, ps, i) < k &&
                Scan(crc, segment, Lines(crc, ps)[..k] + Lines(crc, qs), 0) == Located(crc, segment, ps[..i], 0)
  {
    hide Body, Decode, Scan;
    if IsBoundary(crc, ps, k) {
      var i :| 0 <= i <= |ps| && k == Start(crc, ps, i);
      SplitLines(crc, ps, i);
      ScanLinesThen(crc, segment, ps[..i], Lines(crc, qs), 0);
      ScanLines(crc, segment, ps[..i], 0);
      ScanLines(crc, segment, qs, k);
    } else {
      var i, n := CutInsideLine(crc, ps, k);
      var torn := Body(crc, ps[i])[..n] + Lines(crc, qs);
      Associate(Lines(crc, ps[..i]), Body(crc, ps[i])[..n], Lines(crc, qs));
      ScanLinesThen(crc, segment, ps[..i], torn, 0);
      ScanBehindTorn(crc, segment, ps[i], n, qs, |Lines(crc, ps[..i])|);
    }
  }

  /** Records appended behind a cut are recovered, after everything that survived the
      cut, if and only if the cut is a record boundary. */
  lemma ReopenSafeIff(crc: Checksum, segment: string, ps: seq<Photo>, k: nat, qs: seq<Photo>)
    requires k <= |Lines(crc, ps)| && qs != []
    ensures Scan(crc, segment, Lines(crc, ps)[..k] + Lines(crc, qs), 0) ==
            Scan(crc, segment, Lines(crc, ps)[..k], 0) + Located(crc, segment, qs, k)
            <==> IsBoundary(crc, ps, k)
  {
    hide *;
    ReopenAfterCut(crc, segment, ps, k, qs);
    if !IsBoundary(crc, ps, k) {
      var i :| 0 <= i < |ps| && Start(crc, ps, i) < k &&
        Scan(crc, segment, Lines(crc, ps)[..k] + Lines(crc, qs), 0) == Located(crc, segment, ps[..i], 0);
      KeptBefore(crc, segment, ps, k, i);
    }
  }

  /** A cut behind the start of record `i` keeps at least the records before it. */
  lemma KeptBefore(crc: Checksum, segment: string, ps: seq<Photo>, k: nat, i: nat)
    requires k <= |Lines(crc, ps)| && i < |ps| && Start(crc, ps, i) < k
    ensures |Scan(crc, segment, Lines(crc, ps)[..k], 0)| >= i
  {
    hide Body, Line, Lines, Scan, Start;
    TornWrite(crc, segment, ps, k);
    if i > 0 {
      TailInLine(crc, ps, i - 1, 0);
      LineEnding(crc, ps[i - 1]);
      assert i - 1 < |Scan(crc, segment, Lines(crc, ps)[..k], 0)|;
    }
  }

  /** A crash that leaves one byte of the first record costs every record appended to
      the segment afterwards. */
  lemma OneTornByteLosesAll(crc: Checksum, segment: string, p: Photo, qs: seq<Photo>)
    requires qs != []
    ensures Scan(crc, segment, Lines(crc, [p])[..1] + Lines(crc, qs), 0) == []
  {
    LineFraming(crc, p);
    LineEnding(crc, p);
    BodyOfLine(crc, p, 1);
    ScanBehindTorn(crc, segment, p, 1, qs, 0);
    hide Body, Scan, Decode;
    assert Lines(crc, [p]) == Line(crc, p) + Lines(crc, []);
    assert Lines(crc, [p])[..1] == Line(crc, p)[..1];
  }

  /** The writer can tell: the file is empty or its last byte is a newline. */
  lemma BoundaryEndsInNewline(crc: Checksum, ps: seq<Photo>, k: nat)
    requires k <= |Lines(crc, ps)|
    ensures IsBoundary(crc, ps, k) <==> k == 0 || Lines(crc, ps)[k - 1] == '\n'
  {
    hide Body;
    if k == 0 {
      assert ps[..0] == [];
      assert Start(crc, ps, 0) == 0;
    } else if IsBoundary(crc, ps, k) {
      var i :| 0 <= i <= |ps| && k == Start(crc, ps, i);
      assert ps[..0] == [] && i > 0;
      TailAtNewline(crc, ps, i - 1);
      assert Lines(crc, ps)[k - 1] == Lines(crc, ps)[k - 1..][0];
    } else {
      var i, n := CutInsideLine(crc, ps, k);
      LineFraming(crc, ps[i]);
      LineEnding(crc, ps[i]);
      assert Lines(crc, ps)[k - 1] == Lines(crc, ps)[..k][k - 1] == Body(crc, ps[i])[n - 1];
      assert Body(crc, ps[i])[n - 1] == Line(crc, ps[i])[n - 1];
    }
  }
}
