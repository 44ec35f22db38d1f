/** One line of the log: a record with its checksum, printed canonically. */
module LogFormat {
  import opened Basics
  import opened Order
  import opened Json
  import opened JsonRoundTrip
  import opened Models
  import L = JsonLexer

  /** The checksum of a byte string: any total function, the same for every part of
      the engine. */
  type Checksum = Bytes -> nat

  /** The record with its checksum inserted under the key `crc32`. */
  function Seal(crc: Checksum, m: Object): Object {
    m["crc32" := One(Num(Decimal(crc(Print(m)))))]
  }

  /** `_verify_crc32` with the lookup of the expected value before it: without the
      field the record is rejected as well. */
  predicate Verify(crc: Checksum, m: Object) {
    "crc32" in m && m["crc32"] == One(Num(Decimal(crc(Print(m - {"crc32"})))))
  }

  function Body(crc: Checksum, p: Photo): Bytes {
    Print(Seal(crc, ToRecord(p)))
  }

  function Line(crc: Checksum, p: Photo): (line: Bytes)
    ensures |line| > 0
  {
    Body(crc, p) + "\n"
  }

  /** The white space removed by Python's `bytes.strip`. */
  predicate IsBlank(c: char) {
    IsSpace(c) || c == 11 as char || c == 12 as char
  }

  function StripLeft(t: Bytes): (r: Bytes)
    ensures r != [] ==> !IsBlank(r[0])
  {
    if t != [] && IsBlank(t[0]) then StripLeft(t[1..]) else t
  }

  function StripRight(t: Bytes): Bytes {
    if t != [] && IsBlank(t[|t| - 1]) then StripRight(t[..|t| - 1]) else t
  }

  function Strip(t: Bytes): Bytes {
    StripRight(StripLeft(t))
  }

  datatype Decoded = Blank | Bad | Good(photo: Photo)

  /** What the reader makes of one line: skip it, stop there, or take its record. */
  function Decode(crc: Checksum, line: Bytes): Decoded {
    var stripped := Strip(line);
    if stripped == [] then Blank
    else
      match Parse(stripped)
      case None => Bad
      case Some(m) =>
        if !Verify(crc, m) then Bad
        else
          match FromRecord(m - {"crc32"})
          case None => Bad
          case Some(p) => Good(p)
  }

  // ------------------------------------------------------ checksum round trip

  /** For every record map and every checksum: inserting `crc32`, printing, parsing
      and removing `crc32` gives back the map, hence the same canonical bytes, and
      the checksum is accepted. */
  lemma ChecksumRoundTrip(crc: Checksum, m: Object)
    requires "crc32" !in m
    ensures Parse(Print(Seal(crc, m))) == Some(Seal(crc, m))
    ensures Seal(crc, m) - {"crc32"} == m
    ensures Verify(crc, Seal(crc, m))
  {
    ParsePrinted(Seal(crc, m));
    assert Seal(crc, m) - {"crc32"} == m;
  }

  // -------------------------------------------------------------- whole lines

  lemma PrintedEnds(m: Object)
    requires m.Keys != {}
    ensures |Print(m)| >= 2 && Print(m)[0] == '{' && Print(m)[|Print(m)| - 1] == '}'
  {
  }

  /** Text that starts and ends with a brace is its own stripped form, with or
      without a newline behind it. */
  lemma StripBraced(t: Bytes)
    requires t != [] && t[0] == '{' && t[|t| - 1] == '}'
    ensures Strip(t) == t == Strip(t + "\n")
  {
    assert StripLeft(t) == t && StripRight(t) == t;
    var line := t + "\n";
    assert StripLeft(line) == line && line[..|line| - 1] == t;
    assert StripRight(line) == StripRight(t);
  }

  /** A line contains no newline byte but its last, and is never blank. */
  lemma LineFraming(crc: Checksum, p: Photo)
    ensures forall i :: 0 <= i < |Line(crc, p)| - 1 ==> Line(crc, p)[i] != '\n'
    ensures |Body(crc, p)| >= 2 && Body(crc, p)[0] == '{' && Body(crc, p)[|Body(crc, p)| - 1] == '}'
    ensures Strip(Body(crc, p)) == Body(crc, p) == Strip(Line(crc, p))
  {
    hide Print, ToRecord, Strip;
    var m := Seal(crc, ToRecord(p));
    assert "crc32" in m.Keys;
    L.PrintedIsPrintable(m);
    PrintedEnds(m);
    StripBraced(Body(crc, p));
  }

  lemma DecodeLine(crc: Checksum, p: Photo)
    ensures Decode(crc, Line(crc, p)) == Good(p)
    ensures Decode(crc, Body(crc, p)) == Good(p)
  {
    LineFraming(crc, p);
    RecordRoundTrip(p);
    ChecksumRoundTrip(crc, ToRecord(p));
  }

  /** The keys of a line, in their order. */
  const LINE_KEYS: seq<Bytes> := [
    "camera", "content_hash", "crc32", "gps", "photo_id", "taken_at", "thumbnail_paths", "tombstone", "uploaded_at"]

  /** The order of two keys, by the first character in which they differ. */
  lemma KeyBefore(a: string, b: string, k: nat)
    requires k < |a| && k < |b| && a[..k] == b[..k] && a[k] < b[k]
    ensures Le(a, b) && a != b
  {
    LeMeans(a, b, k);
  }

  lemma KeysAscend()
    ensures Ascending(LINE_KEYS)
  {
    KeyBefore("camera", "content_hash", 1);
    KeyBefore("content_hash", "crc32", 1);
    KeyBefore("crc32", "gps", 0);
    KeyBefore("gps", "photo_id", 0);
    KeyBefore("photo_id", "taken_at", 0);
    KeyBefore("taken_at", "thumbnail_paths", 1);
    KeyBefore("thumbnail_paths", "tombstone", 1);
    KeyBefore("tombstone", "uploaded_at", 0);
    NeighboursAscend(LINE_KEYS);
  }

  lemma {:induction false} NeighboursAscend(q: seq<string>)
    requires forall i | 0 <= i < |q| - 1 :: Le(q[i], q[i + 1]) && q[i] != q[i + 1]
    ensures Ascending(q)
  {
    hide Le;
    if |q| > 1 {
      var n := |q| - 1;
      NeighboursAscend(q[..n]);
      forall i | 0 <= i < n ensures Le(q[i], q[n]) && q[i] != q[n] {
        if i < n - 1 {
          assert Le(q[..n][i], q[..n][n - 1]);
          LeTransitive(q[i], q[n - 1], q[n]);
          if q[i] == q[n] { LeAntisymmetric(q[n - 1], q[n]); }
        }
      }
    }
  }

  lemma PrintIs(m: Object)
    requires m.Keys != {}
    ensures forall k | k in Sorted(m.Keys) :: k in m
    ensures Print(m) == "{" + (PrintMembers(Sorted(m.Keys), m) + "}")
  {
    hide PrintMembers, Sorted;
    SortedIsAscending(m.Keys);
  }

  /** The bytes of a line: the nine members in the order of their keys, then a newline; the
      checksum is that of the record without it. */
  lemma LineText(crc: Checksum, p: Photo)
    ensures var m := ToRecord(p)["crc32" := One(Num(Decimal(crc(Print(ToRecord(p))))))];
            && m.Keys == Elements(LINE_KEYS) && (forall k | k in LINE_KEYS :: k in m)
            && Line(crc, p) == ("{" + (PrintMembers(LINE_KEYS, m) + "}")) + "\n"
  {
    var m := Seal(crc, ToRecord(p));
    assert m.Keys == Elements(LINE_KEYS);
    KeysAscend();
    AscendingIsSorted(LINE_KEYS);
    PrintIs(m);
    hide Decimal, PrintMembers, Ascending, Sorted, Print, ToRecord;
  }

  // ----------------------------------------------------------- damaged records

  /** The record carries its checksum: the number under `crc32` is that of the canonical
      bytes of the rest. */
  predicate Carries(crc: Checksum, m: Object, n: nat) {
    "crc32" in m && m["crc32"] == One(Num(Decimal(n)))
  }

  lemma StripPrinted(m: Object)
    ensures Strip(Print(m)) == Print(m) == Strip(Print(m) + "\n")
  {
    if m.Keys != {} {
      PrintedEnds(m);
      hide Print, Strip;
      StripBraced(Print(m));
    } else {
      StripBraced("{}");
    }
  }

  lemma PrintedIsNotBlank(crc: Checksum, m: Object)
    ensures Decode(crc, Print(m)) == Decode(crc, Print(m) + "\n")
    ensures Decode(crc, Print(m)) != Blank
  {
    StripPrinted(m);
    PrintedIsText(m);
    hide Print, Strip, Parse, FromRecord;
  }

  /** What the reader makes of any printed record: it takes the photo that the rest
      describes if the checksum is that of the rest, and otherwise stops. */
  lemma DecodePrinted(crc: Checksum, m: Object, p: Photo)
    ensures Decode(crc, Print(m)) == Good(p) <==>
            Carries(crc, m, crc(Print(m - {"crc32"}))) && Describes(m - {"crc32"}, p)
  {
    StripPrinted(m);
    PrintedIsText(m);
    ParsePrinted(m);
    ValidationIff(m - {"crc32"}, p);
    hide Print, Strip, Parse, FromRecord, Describes, Decimal;
  }

  lemma PrintedOnOneLine(m: Object)
    ensures forall i | 0 <= i < |Print(m)| :: Print(m)[i] != '\n'
  {
    hide Print;
    L.PrintedIsPrintable(m);
  }

  lemma PrintedIsText(m: Object)
    ensures Print(m) != []
  {
  }

  /** A record with another checksum than that of its canonical bytes is rejected, whatever
      the checksum function: a number `n` under `crc32` that is not the checksum of the
      rest, or none. */
  lemma WrongChecksumIsBad(crc: Checksum, m: Object, n: nat)
    requires "crc32" !in m
    ensures n != crc(Print(m)) ==> Decode(crc, Print(m["crc32" := One(Num(Decimal(n)))])) == Bad
    ensures Decode(crc, Print(m)) == Bad
  {
    var sealed := m["crc32" := One(Num(Decimal(n)))];
    assert sealed - {"crc32"} == m;
    if n != crc(Print(m)) {
      DecimalReadsBack(n);
      DecimalReadsBack(crc(Print(m)));
      assert !Carries(crc, sealed, crc(Print(m)));
      PrintedRejected(crc, sealed);
    }
    PrintedRejected(crc, m);
  }

  lemma PrintedRejected(crc: Checksum, m: Object)
    requires !Carries(crc, m, crc(Print(m - {"crc32"})))
    ensures Decode(crc, Print(m)) == Bad == Decode(crc, Print(m) + "\n")
  {
    hide Print, Carries, Decode, Describes;
    PrintedIsNotBlank(crc, m);
    if Decode(crc, Print(m)).Good? { DecodePrinted(crc, m, Decode(crc, Print(m)).photo); }
  }

  /** A record of which some field was changed, while its checksum is still that of the
      photo `p` before, is rejected unless the two have the same checksum. */
  lemma DamagedIsBad(crc: Checksum, p: Photo, damaged: Photo)
    requires crc(Print(ToRecord(damaged))) != crc(Print(ToRecord(p)))
    ensures var line := Print(ToRecord(damaged)["crc32" := One(Num(Decimal(crc(Print(ToRecord(p))))))]);
            Decode(crc, line) == Bad == Decode(crc, line + "\n")
  {
    RecordRoundTrip(damaged);
    var n := crc(Print(ToRecord(p)));
    WrongChecksumIsBad(crc, ToRecord(damaged), n);
    PrintedIsNotBlank(crc, ToRecord(damaged)["crc32" := One(Num(Decimal(n)))]);
  }

  // ---------------------------------------------------------------- fragments

  lemma {:induction false} StripLeftRuns(t: Bytes)
    ensures L.Run(L.Out(0), t) == L.Run(L.Out(0), StripLeft(t))
    decreases |t|
  {
    if t != [] && IsBlank(t[0]) { StripLeftRuns(t[1..]); }
  }

  lemma RunBlank(c: char)
    requires IsBlank(c)
    ensures L.Run(L.Out(0), [c]) == L.Out(0)
  {
    assert [c][1..] == [];
  }

  lemma {:induction false} StripRightRuns(t: Bytes)
    requires L.Run(L.Out(0), StripRight(t)) == L.Out(0)
    ensures L.Run(L.Out(0), t) == L.Out(0)
    decreases |t|
  {
    hide L.Run, IsBlank;
    if t != [] && IsBlank(t[|t| - 1]) {
      StripRightRuns(t[..|t| - 1]);
      var last := [t[|t| - 1]];
      assert t == t[..|t| - 1] + last;
      L.RunConcat(L.Out(0), t[..|t| - 1], last);
      RunBlank(t[|t| - 1]);
    }
  }

  /** A line that is not balanced is not a record. */
  lemma UnbalancedIsNotGood(crc: Checksum, t: Bytes)
    requires L.Run(L.Out(0), t) != L.Out(0)
    ensures !Decode(crc, t).Good?
  {
    if Decode(crc, t).Good? {
      L.AcceptedIsBalanced(Strip(t));
      StripRightRuns(StripLeft(t));
      StripLeftRuns(t);
    }
  }

  lemma {:induction false} StripKeeps(t: Bytes, i: nat)
    requires i < |t| && !IsBlank(t[i])
    ensures Strip(t) != []
  {
    StripLeftKeeps(t, i);
    var u := StripLeft(t);
    StripRightKeeps(u, 0);
  }

  lemma {:induction false} StripLeftKeeps(t: Bytes, i: nat)
    requires i < |t| && !IsBlank(t[i])
    ensures StripLeft(t) != []
    decreases |t|
  {
    if IsBlank(t[0]) { StripLeftKeeps(t[1..], i - 1); }
  }

  lemma {:induction false} StripRightKeeps(t: Bytes, i: nat)
    requires i < |t| && !IsBlank(t[i])
    ensures StripRight(t) != []
    decreases |t|
  {
    if IsBlank(t[|t| - 1]) { StripRightKeeps(t[..|t| - 1], i); }
  }

  /** A line is skipped exactly when it holds nothing but spaces, tabs, line ends, vertical
      tabs and form feeds. */
  lemma BlankIff(crc: Checksum, t: Bytes)
    ensures Decode(crc, t) == Blank <==>
            forall i | 0 <= i < |t| :: t[i] in [' ', '\t', '\n', '\r', 11 as char, 12 as char]
  {
    if forall i | 0 <= i < |t| :: t[i] in [' ', '\t', '\n', '\r', 11 as char, 12 as char] {
      assert forall i | 0 <= i < |t| :: IsBlank(t[i]);
      StripAll(t);
    } else {
      var i :| 0 <= i < |t| && t[i] !in [' ', '\t', '\n', '\r', 11 as char, 12 as char];
      assert !IsBlank(t[i]);
      StripKeeps(t, i);
    }
    hide Strip, Parse, FromRecord, Verify;
  }

  lemma {:induction false} StripAll(t: Bytes)
    requires forall i | 0 <= i < |t| :: IsBlank(t[i])
    ensures StripLeft(t) == [] && Strip(t) == []
    decreases |t|
  {
    if t != [] {
      forall i | 0 <= i < |t| - 1 ensures IsBlank(t[1..][i]) {
        assert t[1..][i] == t[i + 1];
      }
      StripAll(t[1..]);
    }
  }

  lemma UnbalancedIsBad(crc: Checksum, t: Bytes, i: nat)
    requires L.Run(L.Out(0), t) != L.Out(0)
    requires i < |t| && !IsBlank(t[i])
    ensures Decode(crc, t) == Bad
  {
    UnbalancedIsNotGood(crc, t);
    StripKeeps(t, i);
  }

  lemma BodyEnclosed(crc: Checksum, p: Photo)
    ensures L.Enclosed(Body(crc, p))
  {
    L.PrintedIsEnclosed(Seal(crc, ToRecord(p)));
  }

  /** A torn record, all of whose bytes from the k-th on are missing, is rejected. */
  lemma PrefixIsBad(crc: Checksum, p: Photo, k: nat)
    requires 0 < k < |Body(crc, p)|
    ensures Decode(crc, Body(crc, p)[..k]) == Bad
  {
    BodyEnclosed(crc, p);
    UnbalancedIsBad(crc, Body(crc, p)[..k], 0);
  }

  lemma NewlineKeepsUnbalanced(t: Bytes)
    requires L.Run(L.Out(0), t) != L.Out(0)
    ensures L.Run(L.Out(0), t + "\n") != L.Out(0)
  {
    L.RunConcat(L.Out(0), t, "\n");
    assert "\n"[1..] == [];
  }

  /** The tail of a line, read from anywhere after its first byte, is rejected. */
  lemma SuffixIsBad(crc: Checksum, p: Photo, i: nat)
    requires 0 < i < |Body(crc, p)|
    ensures Decode(crc, Line(crc, p)[i..]) == Bad
  {
    hide Body, Decode;
    var body := Body(crc, p);
    BodyEnclosed(crc, p);
    L.SuffixNotBalanced(body, i);
    NewlineKeepsUnbalanced(body[i..]);
    assert Line(crc, p)[i..] == body[i..] + "\n";
    assert (body[i..] + "\n")[|body| - 1 - i] == '}' by { LineFraming(crc, p); }
    UnbalancedIsBad(crc, body[i..] + "\n", |body| - 1 - i);
  }

  lemma WholeThenLineIsBad(crc: Checksum, p: Photo, p': Photo)
    ensures Decode(crc, Body(crc, p) + Line(crc, p')) == Bad
  {
    hide Print, ToRecord, Strip, Parse;
    var m, body, body' := Seal(crc, ToRecord(p)), Body(crc, p), Body(crc, p');
    LineFraming(crc, p);
    LineFraming(crc, p');
    hide Seal;
    PrintedThenMore(m, body');
    assert SkipSpace(body') == body';
    assert body + Line(crc, p') == (body + body') + "\n";
    StripBraced(body + body');
  }

  /** A torn record with the next record written straight behind it is rejected,
      whether the first lost some bytes of its body or only its newline. */
  lemma TornThenLineIsBad(crc: Checksum, p: Photo, k: nat, p': Photo)
    requires 0 < k <= |Body(crc, p)|
    ensures Decode(crc, Body(crc, p)[..k] + Line(crc, p')) == Bad
  {
    hide Body, Decode;
    var body, body' := Body(crc, p), Body(crc, p');
    if k < |body| {
      BodyEnclosed(crc, p);
      BodyEnclosed(crc, p');
      L.PrefixThenObjectNotBalanced(body, k, body');
      NewlineKeepsUnbalanced(body[..k] + body');
      assert body[..k] + Line(crc, p') == (body[..k] + body') + "\n";
      UnbalancedIsBad(crc, (body[..k] + body') + "\n", 0);
    } else {
      assert body[..k] == body;
      WholeThenLineIsBad(crc, p, p');
    }
  }
}
