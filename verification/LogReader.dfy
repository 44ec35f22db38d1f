/** Reading a segment: the scan of its lines, and the laws it obeys on what the writer
    wrote. */
module LogReader {
  import opened Basics
  import opened Models
  import opened Json
  import opened LogFormat

  // ------------------------------------------------------------ specification

  /** The length of what `f.readline()` returns when `t` is left of the file. */
  function LineLength(t: Bytes): (n: nat)
    ensures n <= |t| && (t != [] ==> n > 0)
  {
    if t == [] then 0
    else if t[0] == '\n' then 1
    else 1 + LineLength(t[1..])
  }

  /** The records read up to the first bad line, when `t` is left of the file and the
      cursor stands at `pos`. */
  function Scan(crc: Checksum, segment: string, t: Bytes, pos: nat): seq<PhotoMeta>
    decreases |t|
  {
    if t == [] then []
    else
      var n := LineLength(t);
      match Decode(crc, t[..n])
      case Blank => Scan(crc, segment, t[n..], pos + n)
      case Bad => []
      case Good(p) => [Place(p, segment, pos, n)] + Scan(crc, segment, t[n..], pos + n)
  }

  /** `replay_segment_from_offset`: seeking behind the end of the file reads nothing. */
  function ScanFrom(crc: Checksum, segment: string, b: Bytes, off: nat): seq<PhotoMeta> {
    if off >= |b| then [] else Scan(crc, segment, b[off..], off)
  }

  /** The bytes that appending `ps` one after the other produces. */
  function Lines(crc: Checksum, ps: seq<Photo>): Bytes {
    if ps == [] then [] else Line(crc, ps[0]) + Lines(crc, ps[1..])
  }

  /** The byte offset of the i-th record. */
  function Start(crc: Checksum, ps: seq<Photo>, i: nat): nat
    requires i <= |ps|
  {
    |Lines(crc, ps[..i])|
  }

  /** The records of a segment with the bookkeeping `append` gave them. */
  function Located(crc: Checksum, segment: string, ps: seq<Photo>, base: nat): (ms: seq<PhotoMeta>)
    ensures |ms| == |ps|
  {
    if ps == [] then []
    else
      var n := |Line(crc, ps[0])|;
      [Place(ps[0], segment, base, n)] + Located(crc, segment, ps[1..], base + n)
  }

  // ------------------------------------------------------------- basic lemmas

  lemma LinesOfNothing(crc: Checksum)
    ensures Lines(crc, []) == []
  {
  }

  lemma {:induction false} LinesConcat(crc: Checksum, a: seq<Photo>, b: seq<Photo>)
    ensures Lines(crc, a + b) == Lines(crc, a) + Lines(crc, b)
  {
    hide Body, Decode;
    if a == [] {
      assert a + b == b;
    } else {
      assert (a + b)[0] == a[0] && (a + b)[1..] == a[1..] + b;
      LinesConcat(crc, a[1..], b);
    }
  }

  lemma LinesSnoc(crc: Checksum, ps: seq<Photo>, p: Photo)
    ensures Lines(crc, ps + [p]) == Lines(crc, ps) + Line(crc, p)
  {
    hide Body, Decode;
    LinesConcat(crc, ps, [p]);
    assert [p][1..] == [];
  }

  lemma Associate<T>(a: seq<T>, b: seq<T>, c: seq<T>)
    ensures a + (b + c) == (a + b) + c
  {
  }

  lemma {:induction false} LocatedConcat(crc: Checksum, segment: string, a: seq<Photo>, b: seq<Photo>, base: nat)
    ensures Located(crc, segment, a + b, base) ==
            Located(crc, segment, a, base) + Located(crc, segment, b, base + |Lines(crc, a)|)
  {
    hide Body, Decode;
    if a == [] {
      assert a + b == b;
      assert Located(crc, segment, a, base) == [] && |Lines(crc, a)| == 0;
    } else {
      var n := |Line(crc, a[0])|;
      assert (a + b)[0] == a[0] && (a + b)[1..] == a[1..] + b;
      LocatedConcat(crc, segment, a[1..], b, base + n);
      assert |Lines(crc, a)| == n + |Lines(crc, a[1..])|;
      var head := [Place(a[0], segment, base, n)];
      var x := Located(crc, segment, a[1..], base + n);
      var y := Located(crc, segment, b, base + |Lines(crc, a)|);
      Associate(head, x, y);
    }
  }

  lemma LocatedOne(crc: Checksum, segment: string, p: Photo, base: nat)
    ensures Located(crc, segment, [p], base) == [Place(p, segment, base, |Line(crc, p)|)]
  {
    hide Line;
    assert [p][1..] == [];
  }

  lemma {:induction false} LocatedAt(crc: Checksum, segment: string, ps: seq<Photo>, base: nat, i: nat)
    requires i < |ps|
    ensures Located(crc, segment, ps, base)[i] ==
            Place(ps[i], segment, base + Start(crc, ps, i), |Line(crc, ps[i])|)
  {
    hide Body, Decode;
    if i > 0 {
      LocatedAt(crc, segment, ps[1..], base + |Line(crc, ps[0])|, i - 1);
      assert ps[..i][0] == ps[0] && ps[..i][1..] == ps[1..][..i - 1];
    }
  }

  /** The bookkeeping of a record names its bytes: at its offset, for its length, the
      segment holds its line. */
  lemma RecordBytes(crc: Checksum, segment: string, ps: seq<Photo>, base: nat, i: nat)
    requires i < |ps|
    ensures var m := Located(crc, segment, ps, base)[i];
            && m.photo == ps[i] && m.segmentId == segment
            && m.offset == base + Start(crc, ps, i) && m.length == |Line(crc, ps[i])|
            && m.offset - base + m.length <= |Lines(crc, ps)|
            && Lines(crc, ps)[m.offset - base..][..m.length] == Line(crc, ps[i])
  {
    LocatedAt(crc, segment, ps, base, i);
    TailInLine(crc, ps, i, 0);
    hide Body, Decode, Located, Line, Lines, Start;
    assert Line(crc, ps[i])[0..] == Line(crc, ps[i]);
  }

  lemma {:induction false} LineLengthAt(t: Bytes, n: nat)
    requires n <= |t|
    requires forall i :: 0 <= i < n ==> t[i] != '\n'
    requires n < |t| ==> t[n] == '\n'
    ensures LineLength(t) == if n < |t| then n + 1 else n
  {
    hide Body, Decode;
    if n > 0 {
      assert t[0] != '\n';
      forall i | 0 <= i < n - 1 ensures t[1..][i] != '\n' {
        assert t[1..][i] == t[i + 1];
      }
      LineLengthAt(t[1..], n - 1);
    }
  }

  /** `t` starts with a whole line. */
  lemma LineLengthOf(crc: Checksum, p: Photo, k: nat, rest: Bytes)
    requires k < |Line(crc, p)|
    ensures var t := Line(crc, p)[k..] + rest;
            var n := |Line(crc, p)| - k;
            LineLength(t) == n && t[..n] == Line(crc, p)[k..] && t[n..] == rest
  {
    hide Body, Decode;
    var line := Line(crc, p);
    var t := line[k..] + rest;
    LineFraming(crc, p);
    var n := |line| - k - 1;
    forall i | 0 <= i < n ensures t[i] != '\n' {
      assert t[i] == line[i + k];
    }
    assert t[n] == line[|line| - 1] == '\n';
    LineLengthAt(t, n);
  }

  /** Reading one whole line. */
  lemma ScanLine(crc: Checksum, segment: string, p: Photo, rest: Bytes, pos: nat)
    ensures Scan(crc, segment, Line(crc, p) + rest, pos) ==
            [Place(p, segment, pos, |Line(crc, p)|)] + Scan(crc, segment, rest, pos + |Line(crc, p)|)
  {
    hide Body, Decode;
    var line := Line(crc, p);
    assert line[0..] == line;
    LineLengthOf(crc, p, 0, rest);
    DecodeLine(crc, p);
  }

  /** Scanning what was appended gives exactly the records appended, in order, each
      with its offset and length, and goes on behind them. */
  lemma {:induction false} ScanLinesThen(crc: Checksum, segment: string, ps: seq<Photo>, rest: Bytes, pos: nat)
    ensures Scan(crc, segment, Lines(crc, ps) + rest, pos) ==
            Located(crc, segment, ps, pos) + Scan(crc, segment, rest, pos + |Lines(crc, ps)|)
    decreases |ps|
  {
    hide Body, Decode, Scan;
    if ps == [] {
      assert Lines(crc, ps) + rest == rest;
    } else {
      var line, tail := Line(crc, ps[0]), Lines(crc, ps[1..]);
      Associate(line, tail, rest);
      ScanLine(crc, segment, ps[0], tail + rest, pos);
      ScanLinesThen(crc, segment, ps[1..], rest, pos + |line|);
      var head := [Place(ps[0], segment, pos, |line|)];
      var x := Located(crc, segment, ps[1..], pos + |line|);
      var y := Scan(crc, segment, rest, pos + |Lines(crc, ps)|);
      assert Located(crc, segment, ps, pos) == head + x;
      Associate(head, x, y);
    }
  }

  lemma ScanLines(crc: Checksum, segment: string, ps: seq<Photo>, pos: nat)
    ensures Scan(crc, segment, Lines(crc, ps), pos) == Located(crc, segment, ps, pos)
  {
    hide Body, Decode;
    assert Lines(crc, ps) + [] == Lines(crc, ps);
    ScanLinesThen(crc, segment, ps, [], pos);
  }

  // --------------------------------------------------------- stopping at damage

  /** A line that is rejected ends the scan: the records before it survive, at their
      places, and nothing behind it is read. */
  lemma ScanStopsAtBad(crc: Checksum, segment: string, ps: seq<Photo>, text: Bytes, rest: Bytes, pos: nat)
    requires (forall i | 0 <= i < |text| :: text[i] != '\n') && Decode(crc, text + "\n") == Bad
    ensures Scan(crc, segment, Lines(crc, ps) + ((text + "\n") + rest), pos) == Located(crc, segment, ps, pos)
  {
    hide Body, Decode, Located;
    var t := (text + "\n") + rest;
    LineLengthAt(t, |text|);
    assert t[..|text| + 1] == text + "\n";
    assert Scan(crc, segment, t, pos + |Lines(crc, ps)|) == [];
    ScanLinesThen(crc, segment, ps, t, pos);
  }

  /** In particular a record, whole and readable but for its checksum. */
  lemma ScanStopsAtDamage(crc: Checksum, segment: string, ps: seq<Photo>, m: Object, rest: Bytes, pos: nat)
    requires !Carries(crc, m, crc(Print(m - {"crc32"})))
    ensures Scan(crc, segment, Lines(crc, ps) + ((Print(m) + "\n") + rest), pos) == Located(crc, segment, ps, pos)
  {
    hide Carries, Print, Scan, Lines, Located, Decode;
    PrintedRejected(crc, m);
    PrintedOnOneLine(m);
    ScanStopsAtBad(crc, segment, ps, Print(m), rest, pos);
  }

  // ------------------------------------------------------------- the split law

  lemma SplitLines(crc: Checksum, ps: seq<Photo>, i: nat)
    requires i <= |ps|
    ensures Start(crc, ps, i) <= |Lines(crc, ps)|
    ensures Lines(crc, ps)[Start(crc, ps, i)..] == Lines(crc, ps[i..])
    ensures Lines(crc, ps)[..Start(crc, ps, i)] == Lines(crc, ps[..i])
  {
    hide Body, Decode;
    assert ps == ps[..i] + ps[i..];
    LinesConcat(crc, ps[..i], ps[i..]);
  }

  /** Split law: for every record boundary, the records before it followed by a
      replay from it are the replay of the whole segment. */
  lemma SplitLaw(crc: Checksum, segment: string, ps: seq<Photo>, i: nat)
    requires i <= |ps|
    ensures Scan(crc, segment, Lines(crc, ps), 0) ==
            Located(crc, segment, ps[..i], 0) + ScanFrom(crc, segment, Lines(crc, ps), Start(crc, ps, i))
    ensures ScanFrom(crc, segment, Lines(crc, ps), Start(crc, ps, i)) == Located(crc, segment, ps, 0)[i..]
    ensures ScanFrom(crc, segment, Lines(crc, ps), 0) == Scan(crc, segment, Lines(crc, ps), 0)
  {
    hide Body, Decode, Scan;
    var b := Lines(crc, ps);
    assert b[0..] == b;
    SplitLines(crc, ps, i);
    ScanLines(crc, segment, ps, 0);
    ScanLines(crc, segment, ps[i..], Start(crc, ps, i));
    assert ps == ps[..i] + ps[i..];
    LocatedConcat(crc, segment, ps[..i], ps[i..], 0);
    assert ScanFrom(crc, segment, b, Start(crc, ps, i)) ==
      Scan(crc, segment, b[Start(crc, ps, i)..], Start(crc, ps, i));
  }

  // --------------------------------------------------------------- seeking

  /** `off` is the start of record `i` (or the end of the file), or the newline byte
      just before it. */
  predicate SeeksTo(crc: Checksum, ps: seq<Photo>, off: nat, i: nat)
    requires i <= |ps|
  {
    off == Start(crc, ps, i) || (i > 0 && off + 1 == Start(crc, ps, i))
  }

  /** Every position of a segment lies in the line of some record. */
  lemma {:induction false} PositionInLine(crc: Checksum, ps: seq<Photo>, off: nat) returns (i: nat)
    requires off < |Lines(crc, ps)|
    ensures i < |ps| && Start(crc, ps, i) <= off < Start(crc, ps, i + 1)
    decreases |ps|
  {
    hide Body, Decode;
    var n := |ps| - 1;
    var init := ps[..n];
    assert ps == init + [ps[n]] && ps[..n + 1] == ps;
    if off < |Lines(crc, init)| {
      i := PositionInLine(crc, init, off);
      assert init[..i] == ps[..i] && init[..i + 1] == ps[..i + 1];
    } else {
      i := n;
    }
  }

  /** What is left of the file from a position inside the line of record `i`. */
  lemma TailInLine(crc: Checksum, ps: seq<Photo>, i: nat, k: nat)
    requires i < |ps| && k < |Line(crc, ps[i])|
    ensures Start(crc, ps, i + 1) == Start(crc, ps, i) + |Line(crc, ps[i])| <= |Lines(crc, ps)|
    ensures Lines(crc, ps)[Start(crc, ps, i) + k..] == Line(crc, ps[i])[k..] + Lines(crc, ps[i + 1..])
  {
    hide Body, Decode;
    SplitLines(crc, ps, i);
    SplitLines(crc, ps, i + 1);
    assert ps[..i + 1] == ps[..i] + [ps[i]];
    LinesSnoc(crc, ps[..i], ps[i]);
    var rest := Lines(crc, ps)[Start(crc, ps, i)..];
    assert ps[i..][1..] == ps[i + 1..];
    assert rest == Line(crc, ps[i]) + Lines(crc, ps[i + 1..]);
    assert Lines(crc, ps)[Start(crc, ps, i) + k..] == rest[k..];
  }

  lemma ScanAtNewline(crc: Checksum, segment: string, rest: Bytes, pos: nat)
    ensures Scan(crc, segment, "\n" + rest, pos) == Scan(crc, segment, rest, pos + 1)
  {
    hide Body;
    var t := "\n" + rest;
    assert t[..1] == "\n" && t[1..] == rest;
    assert "\n"[1..] == [];
    assert Decode(crc, "\n") == Blank;
  }

  lemma ScanInsideLine(crc: Checksum, segment: string, p: Photo, k: nat, rest: Bytes, pos: nat)
    requires 0 < k < |Body(crc, p)|
    ensures Scan(crc, segment, Line(crc, p)[k..] + rest, pos) == []
  {
    hide Body, Decode;
    LineLengthOf(crc, p, k, rest);
    SuffixIsBad(crc, p, k);
  }

  lemma ScanFromIsScan(crc: Checksum, segment: string, b: Bytes, off: nat)
    requires off <= |b|
    ensures ScanFrom(crc, segment, b, off) == Scan(crc, segment, b[off..], off)
  {
  }

  lemma LineEnding(crc: Checksum, p: Photo)
    ensures |Line(crc, p)| == |Body(crc, p)| + 1 && Line(crc, p)[|Body(crc, p)|..] == "\n"
  {
    hide Body;
  }

  lemma TailAtNewline(crc: Checksum, ps: seq<Photo>, j: nat)
    requires j < |ps|
    ensures 0 < Start(crc, ps, j + 1) <= |Lines(crc, ps)|
    ensures Lines(crc, ps)[Start(crc, ps, j + 1) - 1..] == "\n" + Lines(crc, ps[j + 1..])
  {
    hide *;
    var k := |Body(crc, ps[j])|;
    LineEnding(crc, ps[j]);
    TailInLine(crc, ps, j, k);
    assert Start(crc, ps, j + 1) - 1 == Start(crc, ps, j) + k;
  }

  lemma NewlineBefore(crc: Checksum, segment: string, ps: seq<Photo>, i: nat)
    requires 0 < i <= |ps|
    ensures Start(crc, ps, i) > 0
    ensures ScanFrom(crc, segment, Lines(crc, ps), Start(crc, ps, i) - 1) ==
            ScanFrom(crc, segment, Lines(crc, ps), Start(crc, ps, i))
  {
    hide Lines, Scan, ScanFrom, Start;
    var b, off := Lines(crc, ps), Start(crc, ps, i);
    TailAtNewline(crc, ps, i - 1);
    SplitLines(crc, ps, i);
    ScanAtNewline(crc, segment, Lines(crc, ps[i..]), off - 1);
    ScanFromIsScan(crc, segment, b, off - 1);
    ScanFromIsScan(crc, segment, b, off);
  }

  lemma SeekToBoundary(crc: Checksum, segment: string, ps: seq<Photo>, off: nat, i: nat)
    requires i <= |ps| && SeeksTo(crc, ps, off, i)
    ensures ScanFrom(crc, segment, Lines(crc, ps), off) == Located(crc, segment, ps, 0)[i..]
  {
    hide Body, Decode;
    SplitLaw(crc, segment, ps, i);
    if off != Start(crc, ps, i) { NewlineBefore(crc, segment, ps, i); }
  }

  lemma InsideLine(crc: Checksum, segment: string, ps: seq<Photo>, i: nat, k: nat)
    requires i < |ps| && 0 < k < |Body(crc, ps[i])|
    ensures ScanFrom(crc, segment, Lines(crc, ps), Start(crc, ps, i) + k) == []
  {
    hide Body, Decode, Scan;
    TailInLine(crc, ps, i, k);
    ScanInsideLine(crc, segment, ps[i], k, Lines(crc, ps[i + 1..]), Start(crc, ps, i) + k);
  }

  lemma ElsewhereIsInside(crc: Checksum, ps: seq<Photo>, off: nat) returns (i: nat, k: nat)
    requires forall i :: 0 <= i <= |ps| ==> !SeeksTo(crc, ps, off, i)
    requires off < |Lines(crc, ps)|
    ensures i < |ps| && 0 < k < |Body(crc, ps[i])| && off == Start(crc, ps, i) + k
  {
    hide Body, Lines;
    i := PositionInLine(crc, ps, off);
    assert !SeeksTo(crc, ps, off, i) && !SeeksTo(crc, ps, off, i + 1);
    TailInLine(crc, ps, i, 0);
    k := off - Start(crc, ps, i);
  }

  lemma SeekElsewhere(crc: Checksum, segment: string, ps: seq<Photo>, off: nat)
    requires forall i :: 0 <= i <= |ps| ==> !SeeksTo(crc, ps, off, i)
    ensures ScanFrom(crc, segment, Lines(crc, ps), off) == []
  {
    hide Body, Decode, Scan, Lines;
    if off < |Lines(crc, ps)| {
      var i, k := ElsewhereIsInside(crc, ps, off);
      InsideLine(crc, segment, ps, i, k);
    }
  }

  /** Seeking anywhere never invents a record: from a boundary, or from the newline
      just before one, the rest of the segment is read; from anywhere else nothing. */
  lemma SeekLaw(crc: Checksum, segment: string, ps: seq<Photo>, off: nat)
    ensures forall i :: 0 <= i <= |ps| && SeeksTo(crc, ps, off, i) ==>
              ScanFrom(crc, segment, Lines(crc, ps), off) == Located(crc, segment, ps, 0)[i..]
    ensures (forall i :: 0 <= i <= |ps| ==> !SeeksTo(crc, ps, off, i)) ==>
              ScanFrom(crc, segment, Lines(crc, ps), off) == []
  {
    hide Body, Decode, Scan;
    forall i | 0 <= i <= |ps| && SeeksTo(crc, ps, off, i)
      ensures ScanFrom(crc, segment, Lines(crc, ps), off) == Located(crc, segment, ps, 0)[i..]
    {
      SeekToBoundary(crc, segment, ps, off, i);
    }
    if forall i :: 0 <= i <= |ps| ==> !SeeksTo(crc, ps, off, i) {
      SeekElsewhere(crc, segment, ps, off);
    }
  }

  // --------------------------------------------------------------- torn writes

  function Min(a: int, b: int): int {
    if a <= b then a else b
  }

  /** How many records have their whole body within the first `k` bytes. */
  function Intact(crc: Checksum, ps: seq<Photo>, k: nat): (n: nat)
    ensures n <= |ps|
  {
    if ps != [] && |Body(crc, ps[0])| <= k then
      1 + (if k < |Line(crc, ps[0])| then 0 else Intact(crc, ps[1..], k - |Line(crc, ps[0])|))
    else 0
  }

  /** `Intact` counts exactly the records that end within the first `k` bytes. */
  lemma {:induction false} IntactMeans(crc: Checksum, ps: seq<Photo>, k: nat, i: nat)
    requires i < |ps|
    ensures i < Intact(crc, ps, k) <==> Start(crc, ps, i) + |Body(crc, ps[i])| <= k
    decreases |ps|
  {
    hide Body, Decode;
    var n := |Line(crc, ps[0])|;
    if i > 0 {
      assert ps[..i][0] == ps[0] && ps[..i][1..] == ps[1..][..i - 1];
      if n <= k { IntactMeans(crc, ps[1..], k - n, i - 1); }
    }
  }

  /** The records read from a segment cut after `k` bytes. */
  function Survivors(crc: Checksum, segment: string, ps: seq<Photo>, k: nat, base: nat): (ms: seq<PhotoMeta>)
    ensures |ms| == Intact(crc, ps, k)
  {
    hide Body;
    if ps == [] || k < |Body(crc, ps[0])| then []
    else if k == |Body(crc, ps[0])| then [Place(ps[0], segment, base, k)]
    else
      var n := |Line(crc, ps[0])|;
      [Place(ps[0], segment, base, n)] + Survivors(crc, segment, ps[1..], k - n, base + n)
  }

  lemma ScanTornLine(crc: Checksum, segment: string, p: Photo, k: nat, pos: nat)
    requires k < |Line(crc, p)|
    ensures Scan(crc, segment, Line(crc, p)[..k], pos) ==
            if k == |Body(crc, p)| then [Place(p, segment, pos, k)] else []
  {
    hide Body, Decode;
    var t := Line(crc, p)[..k];
    LineFraming(crc, p);
    assert t == Body(crc, p)[..k];
    if k > 0 {
      forall i | 0 <= i < |t| ensures t[i] != '\n' {
        assert t[i] == Line(crc, p)[i];
      }
      LineLengthAt(t, k);
      assert t[..k] == t && t[k..] == [];
      if k == |Body(crc, p)| {
        DecodeLine(crc, p);
      } else {
        PrefixIsBad(crc, p, k);
      }
    }
  }

  lemma {:induction false} ScanTorn(crc: Checksum, segment: string, ps: seq<Photo>, k: nat, pos: nat)
    requires k <= |Lines(crc, ps)|
    ensures Scan(crc, segment, Lines(crc, ps)[..k], pos) == Survivors(crc, segment, ps, k, pos)
    decreases |ps|
  {
    hide Body, Decode;
    if ps != [] {
      var line, tail := Line(crc, ps[0]), Lines(crc, ps[1..]);
      if k < |line| {
        assert Lines(crc, ps)[..k] == line[..k];
        ScanTornLine(crc, segment, ps[0], k, pos);
      } else {
        assert Lines(crc, ps)[..k] == line + tail[..k - |line|];
        ScanLine(crc, segment, ps[0], tail[..k - |line|], pos);
        ScanTorn(crc, segment, ps[1..], k - |line|, pos + |line|);
      }
    }
  }

  lemma {:induction false} SurvivorAt(crc: Checksum, segment: string, ps: seq<Photo>, k: nat, base: nat, i: nat)
    requires i < Intact(crc, ps, k)
    ensures Start(crc, ps, i) <= k
    ensures Survivors(crc, segment, ps, k, base)[i] ==
            Place(ps[i], segment, base + Start(crc, ps, i), Min(|Line(crc, ps[i])|, k - Start(crc, ps, i)))
    decreases |ps|
  {
    hide Body, Decode;
    if i > 0 {
      var n := |Line(crc, ps[0])|;
      assert ps[..i][0] == ps[0] && ps[..i][1..] == ps[1..][..i - 1];
      SurvivorAt(crc, segment, ps[1..], k - n, base + n, i - 1);
    }
  }

  /** Torn write: after a cut at any byte, replay yields exactly the records whose
      body lies wholly before the cut, in order and with the offsets `append`
      returned; only a record that lost just its newline is one byte shorter. */
  lemma TornWrite(crc: Checksum, segment: string, ps: seq<Photo>, k: nat)
    requires k <= |Lines(crc, ps)|
    ensures var r := Scan(crc, segment, Lines(crc, ps)[..k], 0);
            && |r| <= |ps|
            && (forall i :: 0 <= i < |ps| ==> (i < |r| <==> Start(crc, ps, i) + |Body(crc, ps[i])| <= k))
            && (forall i :: 0 <= i < |r| ==>
                  Start(crc, ps, i) <= k &&
                  r[i] == Place(ps[i], segment, Start(crc, ps, i), Min(|Line(crc, ps[i])|, k - Start(crc, ps, i))))
            && (forall i :: 0 <= i < |r| ==>
                  && r[i].photo == ps[i] && r[i].segmentId == segment && r[i].offset == Start(crc, ps, i)
                  && r[i].length == if k < Start(crc, ps, i) + |Line(crc, ps[i])| then |Line(crc, ps[i])| - 1
                                    else |Line(crc, ps[i])|)
  {
    hide Body, Decode, Scan;
    ScanTorn(crc, segment, ps, k, 0);
    forall i | 0 <= i < |ps|
      ensures i < Intact(crc, ps, k) <==> Start(crc, ps, i) + |Body(crc, ps[i])| <= k
    {
      IntactMeans(crc, ps, k, i);
    }
    forall i | 0 <= i < Intact(crc, ps, k)
      ensures Start(crc, ps, i) <= k
      ensures Survivors(crc, segment, ps, k, 0)[i] ==
              Place(ps[i], segment, Start(crc, ps, i), Min(|Line(crc, ps[i])|, k - Start(crc, ps, i)))
    {
      SurvivorAt(crc, segment, ps, k, 0, i);
    }
  }
}
