/** Reading back what was printed: parsing undoes printing, for every record. */
module JsonRoundTrip {
  import opened Basics
  import opened Order
  import opened Json

  lemma EscapeCharShape(c: char)
    ensures |EscapeChar(c)| == 1 ==> EscapeChar(c) == [c] && c != '"' && c != '\\' && c >= ' '
    ensures |EscapeChar(c)| != 1 ==> |EscapeChar(c)| > 1 && EscapeChar(c)[0] == '\\'
  {
  }

  lemma ParseEscapedChar(c: char, t: Bytes)
    ensures ParseString(EscapeChar(c) + t) == Prepend(c, ParseString(t))
  {
    EscapeCharShape(c);
    var u := EscapeChar(c) + t;
    if |EscapeChar(c)| == 1 {
      assert u[0] == c && u[1..] == t;
    } else {
      assert u[1..] == EscapeChar(c)[1..] + t;
      ParseEscapeOf(c, t);
      hide EscapeChar, ParseEscape;
    }
  }

  lemma ParseEscapeOf(c: char, t: Bytes)
    requires |EscapeChar(c)| > 1
    ensures ParseEscape(EscapeChar(c)[1..] + t) == Ok(c, t)
  {
    var u := EscapeChar(c)[1..] + t;
    if |EscapeChar(c)| == 2 {
      assert u[0] == EscapeChar(c)[1] && u[1..] == t;
    } else {
      var hi, lo := c as int / 16, c as int % 16;
      assert u[0] == 'u' && u[1] == '0' && u[2] == '0' && u[3] == DigitChar(hi) && u[4] == DigitChar(lo) && u[5..] == t;
      HexDigitOfDigitChar(hi);
      HexDigitOfDigitChar(lo);
    }
  }

  lemma HexDigitOfDigitChar(n: nat)
    requires n < 16
    ensures HexDigit(DigitChar(n)) == Some(n)
  {
  }

  lemma {:induction false} ParseEscapedString(s: Bytes, t: Bytes)
    ensures ParseString(Escape(s) + ("\"" + t)) == Ok(s, t)
  {
    if s == [] {
      assert Escape(s) + ("\"" + t) == "\"" + t;
      assert ("\"" + t)[1..] == t;
    } else {
      assert Escape(s) + ("\"" + t) == EscapeChar(s[0]) + (Escape(s[1..]) + ("\"" + t));
      ParseEscapedChar(s[0], Escape(s[1..]) + ("\"" + t));
      ParseEscapedString(s[1..], t);
      assert s == [s[0]] + s[1..];
    }
  }

  lemma ParseQuoted(s: Bytes, t: Bytes)
    ensures (Quote(s) + t)[0] == '"'
    ensures ParseString((Quote(s) + t)[1..]) == Ok(s, t)
  {
    assert (Quote(s) + t)[1..] == Escape(s) + ("\"" + t);
    ParseEscapedString(s, t);
  }

  /** A following text that cannot be taken for part of a number. */
  predicate Delimited(t: Bytes) {
    t != [] ==> !IsNumChar(t[0])
  }

  lemma {:induction false} NumLengthOfToken(n: Bytes, t: Bytes)
    requires forall i :: 0 <= i < |n| ==> IsNumChar(n[i])
    requires Delimited(t)
    ensures NumLength(n + t) == |n|
  {
    if n == [] {
      assert n + t == t;
    } else {
      assert (n + t)[1..] == n[1..] + t;
      NumLengthOfToken(n[1..], t);
    }
  }

  lemma ParseNumber(n: NumToken, t: Bytes)
    requires Delimited(t)
    ensures ParseScalar(n + t) == Ok(Num(n), t)
    ensures IsNumChar((n + t)[0])
  {
    var u := n + t;
    NumLengthOfToken(n, t);
    hide NumLength;
    assert IsNumChar(u[0]);
    assert u[..|n|] == n && u[|n|..] == t;
  }

  lemma {:induction false} ParsePrintedScalar(v: Scalar, t: Bytes)
    requires Delimited(t)
    ensures ParseScalar(PrintScalar(v) + t) == Ok(v, t)
    ensures !IsSpace((PrintScalar(v) + t)[0]) && PrintScalar(v)[0] != '[' && PrintScalar(v)[0] != ']'
  {
    hide ParseScalar, Quote;
    match v
    case Null => ParseLiteral("null", v, t);
    case Bool(b) => ParseLiteral(if b then "true" else "false", v, t);
    case Num(n) => ParseNumber(n, t);
    case Str(s) => ParseText(s, t);
  }

  lemma ParseText(s: Bytes, t: Bytes)
    ensures ParseScalar(Quote(s) + t) == Ok(Str(s), t)
    ensures (Quote(s) + t)[0] == '"' && Quote(s)[0] == '"'
  {
    ParseQuoted(s, t);
    assert Quote(s)[0] == '"';
    hide Quote, ParseString;
  }

  lemma ParseLiteral(w: Bytes, v: Scalar, t: Bytes)
    requires (w == "null" && v == Null) || (w == "true" && v == Bool(true)) || (w == "false" && v == Bool(false))
    ensures ParseScalar(w + t) == Ok(v, t)
    ensures (w + t)[0] == w[0]
  {
    hide NumLength, ParseString;
    assert w <= w + t && (w + t)[|w|..] == t;
  }

  lemma SkipSpaceOnce(t: Bytes)
    requires t != [] && !IsSpace(t[0])
    ensures SkipSpace(t) == t && SkipSpace(" " + t) == t
  {
    assert (" " + t)[1..] == t;
  }

  lemma ParseItemsLast(q: Bytes, v: Scalar, t: Bytes)
    requires ParseScalar(SkipSpace(q)) == Ok(v, "]" + t)
    ensures ParseItems(q) == Ok([v], t)
  {
    hide ParseScalar;
    assert SkipSpace("]" + t) == "]" + t && ("]" + t)[1..] == t;
  }

  lemma ParseItemsComma(q: Bytes, v: Scalar, x: Bytes, items: seq<Scalar>, t: Bytes)
    requires ParseScalar(SkipSpace(q)) == Ok(v, "," + (" " + x)) && ParseItems(" " + x) == Ok(items, t)
    ensures ParseItems(q) == Ok([v] + items, t)
  {
    hide ParseScalar;
    var tail := "," + (" " + x);
    assert SkipSpace(tail) == tail && tail[1..] == " " + x;
  }

  lemma ItemsText(items: seq<Scalar>, end: Bytes)
    requires |items| > 1
    ensures PrintItems(items) + end == PrintScalar(items[0]) + ("," + (" " + (PrintItems(items[1..]) + end)))
  {
    hide PrintScalar;
    var a, b := PrintScalar(items[0]), PrintItems(items[1..]);
    assert PrintItems(items) == a + ([',', ' '] + b);
    Regroup(a, ',', b, end);
  }

  lemma {:induction false} ParsePrintedItems(items: seq<Scalar>, t: Bytes)
    requires items != []
    ensures ParseItems(PrintItems(items) + ("]" + t)) == Ok(items, t)
    ensures ParseItems(" " + (PrintItems(items) + ("]" + t))) == Ok(items, t)
    ensures PrintItems(items) != [] && !IsSpace(PrintItems(items)[0]) && PrintItems(items)[0] != ']'
  {
    hide PrintScalar, ParseScalar, ParseItems, SkipSpace;
    var v, text := items[0], PrintItems(items) + ("]" + t);
    if |items| == 1 {
      ParsePrintedScalar(v, "]" + t);
      SkipSpaceOnce(text);
      ParseItemsLast(text, v, t);
      ParseItemsLast(" " + text, v, t);
      assert items == [v];
    } else {
      var x := PrintItems(items[1..]) + ("]" + t);
      ItemsText(items, "]" + t);
      ParsePrintedScalar(v, "," + (" " + x));
      SkipSpaceOnce(text);
      ParsePrintedItems(items[1..], t);
      ParseItemsComma(text, v, x, items[1..], t);
      ParseItemsComma(" " + text, v, x, items[1..], t);
      assert items == [v] + items[1..];
    }
  }

  lemma ParsePrintedList(items: seq<Scalar>, t: Bytes)
    requires items != []
    ensures ParseValue("[" + (PrintItems(items) + ("]" + t))) == Ok(Many(items), t)
  {
    hide PrintItems, ParseItems;
    var x := PrintItems(items) + ("]" + t);
    ParsePrintedItems(items, t);
    assert ("[" + x)[1..] == x;
    SkipSpaceOnce(x);
  }

  lemma ParseEmptyList(t: Bytes)
    ensures ParseValue("[]" + t) == Ok(Many([]), t)
  {
    var u := "[]" + t;
    assert u[1..] == "]" + t && ("]" + t)[1..] == t;
    assert SkipSpace("]" + t) == "]" + t;
  }

  lemma ParseScalarValue(v: Scalar, t: Bytes)
    requires Delimited(t)
    ensures ParseValue(PrintScalar(v) + t) == Ok(One(v), t)
    ensures !IsSpace((PrintScalar(v) + t)[0])
  {
    ParsePrintedScalar(v, t);
    hide PrintScalar, ParseScalar, IsSpace;
  }

  lemma ParsePrintedValue(v: Value, t: Bytes)
    requires Delimited(t)
    ensures ParseValue(PrintValue(v) + t) == Ok(v, t)
    ensures !IsSpace((PrintValue(v) + t)[0])
  {
    hide ParseValue, PrintScalar, PrintItems;
    match v
    case One(s) => ParseScalarValue(s, t);
    case Many(items) =>
      if items == [] {
        ParseEmptyList(t);
      } else {
        var x := PrintItems(items) + ("]" + t);
        assert PrintValue(v) + t == "[" + x;
        ParsePrintedList(items, t);
      }
  }

  /** Regroups a text so that a separator and the blank after it stand apart. */
  lemma Regroup(a: Bytes, c: char, b: Bytes, t: Bytes)
    ensures (a + ([c, ' '] + b)) + t == a + ([c] + (" " + (b + t)))
    ensures ([c] + (" " + (b + t)))[1..] == " " + (b + t)
  {
  }

  lemma ParseMemberParts(q: Bytes, k: Bytes, v: Value, x: Bytes, t: Bytes)
    requires q != [] && q[0] == '"' && ParseString(q[1..]) == Ok(k, ":" + (" " + x))
    requires x != [] && !IsSpace(x[0]) && ParseValue(x) == Ok(v, t)
    ensures ParseMember(q) == Ok((k, v), t)
  {
    var w := ":" + (" " + x);
    assert SkipSpace(q) == q;
    assert SkipSpace(w) == w && w[1..] == " " + x;
    SkipSpaceOnce(x);
  }

  lemma ParseMemberAfterSpace(t: Bytes)
    requires t != [] && t[0] == '"'
    ensures ParseMember(" " + t) == ParseMember(t)
  {
    SkipSpaceOnce(t);
  }

  lemma ParsePrintedMember(k: Bytes, v: Value, t: Bytes)
    requires Delimited(t)
    ensures ParseMember(PrintMember(k, v) + t) == Ok((k, v), t)
    ensures (PrintMember(k, v) + t)[0] == '"'
  {
    var x := PrintValue(v) + t;
    var w := ":" + (" " + x);
    assert PrintMember(k, v) + t == Quote(k) + w by {
      Regroup(Quote(k), ':', PrintValue(v), t);
      assert ": " == [':', ' '];
    }
    ParseQuoted(k, w);
    ParsePrintedValue(v, t);
    ParseMemberParts(Quote(k) + w, k, v, x, t);
  }

  function Restrict(m: Object, keys: seq<Bytes>): Object
    requires forall k :: k in keys ==> k in m
  {
    map k | k in keys :: m[k]
  }

  lemma ParseMembersComma(q: Bytes, k: Bytes, v: Value, x: Bytes, acc: Object)
    requires ParseMember(q) == Ok((k, v), "," + (" " + x))
    ensures ParseMembers(q, acc) == ParseMembers(" " + x, acc[k := v])
  {
    var tail := "," + (" " + x);
    assert SkipSpace(tail) == tail && tail[1..] == " " + x;
  }

  lemma ParseMembersLast(q: Bytes, k: Bytes, v: Value, t: Bytes, acc: Object)
    requires ParseMember(q) == Ok((k, v), "}" + t)
    ensures ParseMembers(q, acc) == Ok(acc[k := v], t)
  {
    assert SkipSpace("}" + t) == "}" + t && ("}" + t)[1..] == t;
  }

  lemma RestrictTail(m: Object, keys: seq<Bytes>, acc: Object)
    requires keys != [] && forall k :: k in keys ==> k in m
    ensures acc[keys[0] := m[keys[0]]] + Restrict(m, keys[1..]) == acc + Restrict(m, keys)
  {
    assert keys == [keys[0]] + keys[1..];
  }

  lemma MembersText(keys: seq<Bytes>, m: Object, end: Bytes)
    requires |keys| > 1 && forall k :: k in keys ==> k in m
    ensures PrintMembers(keys, m) + end ==
            PrintMember(keys[0], m[keys[0]]) + ("," + (" " + (PrintMembers(keys[1..], m) + end)))
  {
    var a, b := PrintMember(keys[0], m[keys[0]]), PrintMembers(keys[1..], m);
    assert PrintMembers(keys, m) == a + ([',', ' '] + b);
    Regroup(a, ',', b, end);
  }

  lemma {:induction false} ParsePrintedMembers(keys: seq<Bytes>, m: Object, acc: Object, t: Bytes)
    requires keys != [] && forall k :: k in keys ==> k in m
    ensures ParseMembers(PrintMembers(keys, m) + ("}" + t), acc) == Ok(acc + Restrict(m, keys), t)
    ensures PrintMembers(keys, m) != [] && PrintMembers(keys, m)[0] == '"'
  {
    var k, v, end := keys[0], m[keys[0]], "}" + t;
    RestrictTail(m, keys, acc);
    if |keys| == 1 {
      ParsePrintedMember(k, v, end);
      ParseMembersLast(PrintMember(k, v) + end, k, v, t, acc);
      assert acc[k := v] + Restrict(m, keys[1..]) == acc[k := v];
    } else {
      var rest := PrintMembers(keys[1..], m) + end;
      MembersText(keys, m, end);
      ParsePrintedMember(k, v, "," + (" " + rest));
      ParsePrintedMembers(keys[1..], m, acc[k := v], t);
      ParseMembersComma(PrintMember(k, v) + ("," + (" " + rest)), k, v, rest, acc);
      ParseMembersAfterSpace(rest, acc[k := v]);
    }
  }

  lemma ParseMembersAfterSpace(t: Bytes, acc: Object)
    requires t != [] && t[0] == '"'
    ensures ParseMembers(" " + t, acc) == ParseMembers(t, acc)
  {
    ParseMemberAfterSpace(t);
  }

  lemma ParseBraced(x: Bytes, m: Object, t: Bytes)
    requires x != [] && x[0] == '"' && ParseMembers(x, map[]) == Ok(m, t)
    ensures ParseObject("{" + x) == Ok(m, t)
  {
    var u := "{" + x;
    assert SkipSpace(u) == u && u[1..] == x;
    assert SkipSpace(x) == x;
  }

  lemma ParseEmptyObject(t: Bytes)
    ensures ParseObject("{}" + t) == Ok(map[], t)
  {
    var u := "{}" + t;
    assert SkipSpace(u) == u;
    assert u[1..] == "}" + t && ("}" + t)[1..] == t;
    assert SkipSpace("}" + t) == "}" + t;
  }

  lemma ParsePrintedObject(m: Object, t: Bytes)
    ensures ParseObject(Print(m) + t) == Ok(m, t)
  {
    hide ParseObject, PrintMembers, ParseMembers, Sorted;
    if m.Keys == {} {
      ParseEmptyObject(t);
      assert m == map[];
    } else {
      var keys := Sorted(m.Keys);
      SortedIsAscending(m.Keys);
      var x := PrintMembers(keys, m) + ("}" + t);
      assert Print(m) + t == "{" + x;
      ParsePrintedMembers(keys, m, map[], t);
      ParseBraced(x, map[] + Restrict(m, keys), t);
      assert map[] + Restrict(m, keys) == m;
    }
  }

  /** Parsing undoes printing, for every record map. */
  lemma ParsePrinted(m: Object)
    ensures Parse(Print(m)) == Some(m)
  {
    assert Print(m) == Print(m) + [];
    ParsePrintedObject(m, []);
  }

  /** A printed object followed by anything but white space is not one JSON text. */
  lemma PrintedThenMore(m: Object, t: Bytes)
    ensures Parse(Print(m) + t) == if SkipSpace(t) == [] then Some(m) else None
  {
    ParsePrintedObject(m, t);
  }

  // ---------------------------------------------------------- more than printed

  /** White space, and nothing else, may stand around an object. */
  lemma SpaceAround(a: Bytes, m: Object, b: Bytes)
    requires forall i | 0 <= i < |a| :: a[i] in " \t\n\r"
    ensures Parse(a + (Print(m) + b)) == if forall i | 0 <= i < |b| :: b[i] in " \t\n\r" then Some(m) else None
  {
    SkipOnlySpace(a, Print(m) + b);
    ObjectStarts(m, b);
    ParsePrintedObject(m, b);
    SpaceIff(b);
    hide Print, SkipSpace;
  }

  lemma ObjectStarts(m: Object, b: Bytes)
    ensures SkipSpace(Print(m) + b) == Print(m) + b
  {
    hide PrintMembers, Sorted;
  }

  lemma {:induction false} SkipOnlySpace(a: Bytes, t: Bytes)
    requires forall i | 0 <= i < |a| :: a[i] in " \t\n\r"
    ensures SkipSpace(a + t) == SkipSpace(t)
  {
    if a == [] {
      assert a + t == t;
    } else {
      assert (a + t)[1..] == a[1..] + t;
      SkipOnlySpace(a[1..], t);
    }
  }

  lemma {:induction false} SpaceIff(b: Bytes)
    ensures SkipSpace(b) == [] <==> forall i | 0 <= i < |b| :: b[i] in " \t\n\r"
  {
    if b != [] {
      SpaceIff(b[1..]);
      assert forall i | 0 <= i < |b| - 1 :: b[1..][i] == b[i + 1];
      assert forall i | 1 <= i < |b| :: b[i] == b[1..][i - 1];
    }
  }

  /** The escapes that are read but not written: the slash, and codes in either case. */
  lemma ForeignEscapes(x: nat, y: nat, t: Bytes)
    requires x < 8 && y < 16
    ensures ParseEscape("/" + t) == Ok('/', t)
    ensures ParseEscape("u00" + (["01234567"[x], "0123456789abcdef"[y]] + t)) == Ok((16 * x + y) as char, t)
    ensures ParseEscape("u00" + (["01234567"[x], "0123456789ABCDEF"[y]] + t)) == Ok((16 * x + y) as char, t)
  {
    assert ("/" + t)[1..] == t;
    var lower := "u00" + (["01234567"[x], "0123456789abcdef"[y]] + t);
    var upper := "u00" + (["01234567"[x], "0123456789ABCDEF"[y]] + t);
    assert lower[5..] == t && upper[5..] == t;
    assert lower[3] == "01234567"[x] && lower[4] == "0123456789abcdef"[y];
    assert upper[3] == "01234567"[x] && upper[4] == "0123456789ABCDEF"[y];
    DigitValues(x, y);
    hide ParseString;
  }

  lemma DigitValues(x: nat, y: nat)
    requires x < 8 && y < 16
    ensures HexDigit("01234567"[x]) == Some(x)
    ensures HexDigit("0123456789abcdef"[y]) == Some(y) == HexDigit("0123456789ABCDEF"[y])
  {
  }

  /** The characters of a number, and the literals. */
  lemma NumberText(t: Bytes)
    ensures IsNumToken(t) <==> t != [] && forall i | 0 <= i < |t| :: t[i] in "0123456789+-.eE"
    ensures ParseScalar("null" + t) == Ok(Null, t)
    ensures ParseScalar("true" + t) == Ok(Bool(true), t) && ParseScalar("false" + t) == Ok(Bool(false), t)
  {
    forall c: char ensures IsNumChar(c) <==> c in "0123456789+-.eE" {
      if '0' <= c <= '9' { assert c == "0123456789+-.eE"[c as int - '0' as int]; }
    }
    hide IsNumChar;
    assert ("null" + t)[4..] == t && ("true" + t)[4..] == t && ("false" + t)[5..] == t;
  }

  /** A string that is not closed, or has a raw control character, is rejected. */
  lemma {:induction false} BrokenString(s: Bytes, broken: Bytes)
    requires broken == [] || broken[0] < ' '
    ensures ParseString(Escape(s) + broken) == Fail
  {
    if s == [] {
      assert Escape(s) + broken == broken;
    } else {
      BrokenString(s[1..], broken);
      var rest := Escape(s[1..]) + broken;
      ParseEscapedChar(s[0], rest);
      hide EscapeChar, ParseString;
      assert Escape(s) + broken == EscapeChar(s[0]) + rest;
    }
  }

  lemma ParseWhole(t: Bytes, m: Object)
    requires ParseObject(t) == Ok(m, [])
    ensures Parse(t) == Some(m)
  {
    hide ParseObject;
  }

  /** Of two members with one key the last counts. */
  lemma LastMemberWins(k: Bytes, v: Value, w: Value)
    ensures Parse("{" + (PrintMember(k, v) + ("," + (" " + (PrintMember(k, w) + "}"))))) == Some(map[k := w])
  {
    var last := PrintMember(k, w) + "}";
    var text := PrintMember(k, v) + ("," + (" " + last));
    ParsePrintedMember(k, v, "," + (" " + last));
    ParsePrintedMember(k, w, "}");
    assert text[0] == '"' && last[0] == '"';
    hide *;
    assert "}" + [] == "}";
    ParseMembersComma(text, k, v, last, map[]);
    ParseMembersAfterSpace(last, map[k := v]);
    ParseMembersLast(last, k, w, [], map[k := v]);
    assert map[k := v][k := w] == map[k := w];
    ParseBraced(text, map[k := w], []);
    ParseWhole("{" + text, map[k := w]);
  }

  // -------------------------------------------------------------- exact texts

  /** The text of an object of two members: keys ascending, a colon and a space, a comma
      and a space. */
  lemma PairText(a: Bytes, v: Value, b: Bytes, w: Value)
    requires Le(a, b) && a != b
    ensures var x, y := Quote(a) + (": " + PrintValue(v)), Quote(b) + (": " + PrintValue(w));
            Print(map[a := v, b := w]) == "{" + (x + (", " + (y + "}")))
  {
    var m := map[a := v, b := w];
    assert Ascending([a, b]) && Elements([a, b]) == m.Keys;
    AscendingIsSorted([a, b]);
    PairMembers(a, v, b, w, m);
    hide PrintMembers, Quote, PrintValue, Sorted, Ascending;
    assert Print(m) == "{" + (PrintMembers([a, b], m) + "}");
  }

  lemma PairMembers(a: Bytes, v: Value, b: Bytes, w: Value, m: Object)
    requires a in m && m[a] == v && b in m && m[b] == w
    ensures var x, y := Quote(a) + (": " + PrintValue(v)), Quote(b) + (": " + PrintValue(w));
            PrintMembers([a, b], m) + "}" == x + (", " + (y + "}"))
  {
    hide Quote, PrintValue;
    assert [a, b][1..] == [b];
    var x, y := Quote(a) + (": " + PrintValue(v)), Quote(b) + (": " + PrintValue(w));
    assert PrintMembers([a, b], m) == x + (", " + y);
    assert (x + (", " + y)) + "}" == x + (", " + (y + "}"));
  }

  /** The text of the scalars that are not text. */
  lemma ScalarText(t: NumToken)
    ensures PrintScalar(Null) == "null" && PrintScalar(Bool(true)) == "true" && PrintScalar(Bool(false)) == "false"
    ensures PrintScalar(Num(t)) == t
  {
  }

  /** The text of a list. */
  lemma ListText(v: Scalar, w: Scalar)
    ensures PrintValue(Many([])) == "[]" && PrintValue(Many([v])) == "[" + (PrintScalar(v) + "]")
    ensures PrintValue(Many([v, w])) == "[" + ((PrintScalar(v) + (", " + PrintScalar(w))) + "]")
  {
    hide PrintScalar;
    assert [v, w][1..] == [w];
    assert PrintItems([v, w]) == PrintScalar(v) + (", " + PrintScalar(w));
  }

  lemma EscapeConcat(a: Bytes, b: Bytes)
    ensures Escape(a + b) == Escape(a) + Escape(b)
  {
    hide EscapeChar;
    if a == [] {
      assert a + b == b;
    } else {
      assert (a + b)[0] == a[0] && (a + b)[1..] == a[1..] + b;
      EscapeConcat(a[1..], b);
    }
  }

  /** How each character is written inside quotes: the two-character escapes, the other
      control characters by their code, and everything else as it is. */
  lemma EscapedCharText(c: char)
    ensures Escape(['"']) == ['\\', '"'] && Escape(['\\']) == ['\\', '\\']
    ensures Escape(['\n']) == ['\\', 'n'] && Escape(['\r']) == ['\\', 'r'] && Escape(['\t']) == ['\\', 't']
    ensures Escape([8 as char]) == ['\\', 'b'] && Escape([12 as char]) == ['\\', 'f']
    ensures Escape([0 as char]) == "\\u0000" && Escape([11 as char]) == "\\u000b" && Escape([31 as char]) == "\\u001f"
    ensures c >= ' ' && c != '"' && c != '\\' ==> Escape([c]) == [c]
  {
    EscapeOne('"');
    EscapeOne('\\');
    EscapeOne('\n');
    EscapeOne('\r');
    EscapeOne('\t');
    EscapeOne(8 as char);
    EscapeOne(12 as char);
    EscapeOne(0 as char);
    EscapeOne(11 as char);
    EscapeOne(31 as char);
    EscapeOne(c);
    hide Escape;
  }

  lemma EscapeOne(c: char)
    ensures Escape([c]) == EscapeChar(c)
  {
    hide EscapeChar;
    assert [c][1..] == [];
    assert EscapeChar(c) + [] == EscapeChar(c);
  }

  // ---------------------------------------------------------------- decimals

  /** The number a string of digits stands for. */
  function ReadDecimal(t: Bytes): int {
    if t == [] then 0 else 10 * ReadDecimal(t[..|t| - 1]) + (t[|t| - 1] as int - '0' as int)
  }

  /** A printed number reads back, so different numbers print differently. */
  lemma {:induction false} DecimalReadsBack(n: nat)
    ensures ReadDecimal(Decimal(n)) == n
    ensures forall i | 0 <= i < |Decimal(n)| :: '0' <= Decimal(n)[i] <= '9'
    ensures |Decimal(n)| > 1 ==> Decimal(n)[0] != '0'
  {
    if n < 10 {
      assert [DigitChar(n)][..0] == [];
    } else {
      DecimalReadsBack(n / 10);
      var init, last := Decimal(n / 10), DigitChar(n % 10);
      assert Decimal(n) == init + [last];
      assert (init + [last])[..|init + [last]| - 1] == init;
      if |init| == 1 { assert init[..0] == []; }
    }
  }
}
