/** Why a fragment of a printed object is never itself an object: quotes and braces
    are counted by a small automaton that every accepted text must bring back to
    its start, while a fragment of a printed object cannot. */
module JsonLexer {
  import opened Basics
  import opened Order
  import opened Json

  /** Outside strings, inside a string, just after a backslash in a string (each
      with the number of open braces), or no JSON text at all. */
  datatype State = Out(depth: nat) | In(depth: nat) | Esc(depth: nat) | Dead

  function Step(q: State, c: char): State {
    match q
    case Dead => Dead
    case In(d) => if c == '"' then Out(d) else if c == '\\' then Esc(d) else q
    case Esc(d) => In(d)
    case Out(d) =>
      if c == '"' then In(d)
      else if c == '\\' then Dead
      else if c == '{' then Out(d + 1)
      else if c == '}' then if d == 0 then Dead else Out(d - 1)
      else q
  }

  function Run(q: State, t: Bytes): State
    decreases |t|
  {
    if t == [] then q else Run(Step(q, t[0]), t[1..])
  }

  lemma {:induction false} RunDead(t: Bytes)
    ensures Run(Dead, t) == Dead
    decreases |t|
  {
    if t != [] { RunDead(t[1..]); }
  }

  lemma {:induction false} RunConcat(q: State, a: Bytes, b: Bytes)
    ensures Run(q, a + b) == Run(Run(q, a), b)
    decreases |a|
  {
    if a == [] {
      assert a + b == b;
    } else {
      assert (a + b)[1..] == a[1..] + b;
      RunConcat(Step(q, a[0]), a[1..], b);
    }
  }

  // ------------------------------------- what the parser accepts is balanced

  /** The first `n` characters of `t` leave the automaton where it is. */
  lemma {:induction false} RunStill(q: State, t: Bytes, n: nat)
    requires n <= |t| && forall i :: 0 <= i < n ==> Step(q, t[i]) == q
    ensures Run(q, t) == Run(q, t[n..])
  {
    if n == 0 {
      assert t[0..] == t;
    } else {
      assert Step(q, t[0]) == q;
      assert t[1..][n - 1..] == t[n..];
      RunStill(q, t[1..], n - 1);
    }
  }

  lemma {:induction false} SkipSpaceRuns(d: nat, t: Bytes)
    ensures Run(Out(d), t) == Run(Out(d), SkipSpace(t))
    decreases |t|
  {
    if t != [] && IsSpace(t[0]) { SkipSpaceRuns(d, t[1..]); }
  }

  lemma HexIsPlain(c: char)
    ensures HexDigit(c).Some? ==> c != '"' && c != '\\'
  {
  }

  lemma ParseEscapeRuns(d: nat, t: Bytes)
    requires ParseEscape(t).Ok?
    ensures Run(Esc(d), t) == Run(In(d), ParseEscape(t).rest)
  {
    hide HexDigit;
    if t[0] == 'u' {
      HexIsPlain(t[1]); HexIsPlain(t[2]); HexIsPlain(t[3]); HexIsPlain(t[4]);
      var u := t[1..];
      forall i | 0 <= i < 4 ensures Step(In(d), u[i]) == In(d) {
        assert u[i] == t[i + 1];
      }
      RunStill(In(d), u, 4);
      assert u[4..] == t[5..];
    }
  }

  lemma {:induction false} ParseStringRuns(d: nat, t: Bytes)
    requires ParseString(t).Ok?
    ensures Run(In(d), t) == Run(Out(d), ParseString(t).rest)
    decreases |t|
  {
    if t[0] == '"' {
    } else if t[0] == '\\' {
      ParseEscapeRuns(d, t[1..]);
      ParseStringRuns(d, ParseEscape(t[1..]).rest);
    } else {
      ParseStringRuns(d, t[1..]);
    }
  }

  lemma ParseScalarRuns(d: nat, t: Bytes)
    requires ParseScalar(t).Ok?
    ensures Run(Out(d), t) == Run(Out(d), ParseScalar(t).rest)
  {
    if t[0] == '"' {
      ParseStringRuns(d, t[1..]);
    } else {
      var n := |t| - |ParseScalar(t).rest|;
      forall i | 0 <= i < n ensures Step(Out(d), t[i]) == Out(d) {
        if "null" <= t {
          assert t[i] == "null"[i];
        } else if "true" <= t {
          assert t[i] == "true"[i];
        } else if "false" <= t {
          assert t[i] == "false"[i];
        } else {
          assert IsNumChar(t[i]);
        }
      }
      RunStill(Out(d), t, n);
    }
  }

  lemma {:induction false} ParseItemsRuns(d: nat, t: Bytes)
    requires ParseItems(t).Ok?
    ensures Run(Out(d), t) == Run(Out(d), ParseItems(t).rest)
    decreases |t|
  {
    hide ParseScalar, SkipSpace;
    SkipSpaceRuns(d, t);
    ParseScalarRuns(d, SkipSpace(t));
    var r := ParseScalar(SkipSpace(t)).rest;
    SkipSpaceRuns(d, r);
    var u := SkipSpace(r);
    assert Step(Out(d), u[0]) == Out(d);
    if u[0] == ',' { ParseItemsRuns(d, u[1..]); }
  }

  lemma ParseValueRuns(d: nat, t: Bytes)
    requires ParseValue(t).Ok?
    ensures Run(Out(d), t) == Run(Out(d), ParseValue(t).rest)
  {
    if t != [] && t[0] == '[' {
      SkipSpaceRuns(d, t[1..]);
      var u := SkipSpace(t[1..]);
      if u != [] && u[0] == ']' {
      } else {
        ParseItemsRuns(d, t[1..]);
      }
    } else {
      ParseScalarRuns(d, t);
    }
  }

  lemma ParseMemberRuns(d: nat, t: Bytes)
    requires ParseMember(t).Ok?
    ensures Run(Out(d), t) == Run(Out(d), ParseMember(t).rest)
  {
    hide ParseString, ParseValue, SkipSpace;
    SkipSpaceRuns(d, t);
    var u := SkipSpace(t);
    ParseStringRuns(d, u[1..]);
    var r := ParseString(u[1..]).rest;
    SkipSpaceRuns(d, r);
    var w := SkipSpace(r);
    SkipSpaceRuns(d, w[1..]);
    ParseValueRuns(d, SkipSpace(w[1..]));
  }

  lemma {:induction false} ParseMembersRuns(d: nat, t: Bytes, m: Object)
    requires ParseMembers(t, m).Ok?
    ensures Run(Out(d + 1), t) == Run(Out(d), ParseMembers(t, m).rest)
    decreases |t|
  {
    hide ParseMember, SkipSpace;
    ParseMemberRuns(d + 1, t);
    var p := ParseMember(t);
    SkipSpaceRuns(d + 1, p.rest);
    var u := SkipSpace(p.rest);
    if u[0] == ',' {
      ParseMembersRuns(d, u[1..], m[p.value.0 := p.value.1]);
    } else {
      assert Step(Out(d + 1), u[0]) == Out(d);
    }
  }

  lemma ParseObjectRuns(t: Bytes)
    requires ParseObject(t).Ok?
    ensures Run(Out(0), t) == Run(Out(0), ParseObject(t).rest)
  {
    hide ParseMembers, SkipSpace;
    SkipSpaceRuns(0, t);
    var u := SkipSpace(t);
    assert Step(Out(0), u[0]) == Out(1);
    SkipSpaceRuns(1, u[1..]);
    var w := SkipSpace(u[1..]);
    if w != [] && w[0] == '}' {
      assert Step(Out(1), w[0]) == Out(0);
    } else {
      ParseMembersRuns(0, u[1..], map[]);
    }
  }

  /** Every text the parser accepts brings the automaton back to its start. */
  lemma AcceptedIsBalanced(t: Bytes)
    requires Parse(t).Some?
    ensures Run(Out(0), t) == Out(0)
  {
    ParseObjectRuns(t);
    hide ParseObject, SkipSpace;
    SkipSpaceRuns(0, ParseObject(t).rest);
  }

  // ---------------------------------------- a printed object encloses its text

  ghost predicate AtDepth(q: State, d: nat) {
    !q.Dead? && q.depth == d
  }

  /** Reading `t` from `q` never leaves brace depth `d`. */
  ghost predicate Level(q: State, d: nat, t: Bytes)
    decreases |t|
  {
    AtDepth(q, d) && (t != [] ==> Level(Step(q, t[0]), d, t[1..]))
  }

  /** A text of balanced strings with no brace outside them. */
  ghost predicate Closed(t: Bytes) {
    Level(Out(1), 1, t) && Run(Out(1), t) == Out(1)
  }

  lemma {:induction false} LevelConcat(q: State, d: nat, a: Bytes, b: Bytes)
    requires Level(q, d, a) && Level(Run(q, a), d, b)
    ensures Level(q, d, a + b)
    decreases |a|
  {
    if a == [] {
      assert a + b == b;
    } else {
      assert (a + b)[1..] == a[1..] + b;
      LevelConcat(Step(q, a[0]), d, a[1..], b);
    }
  }

  lemma {:induction false} LevelPrefix(q: State, d: nat, t: Bytes, k: nat)
    requires Level(q, d, t) && k <= |t|
    ensures AtDepth(Run(q, t[..k]), d)
    decreases |t|
  {
    if k > 0 {
      assert t[..k][1..] == t[1..][..k - 1];
      LevelPrefix(Step(q, t[0]), d, t[1..], k - 1);
    }
  }

  lemma ClosedConcat(a: Bytes, b: Bytes)
    requires Closed(a) && Closed(b)
    ensures Closed(a + b)
  {
    LevelConcat(Out(1), 1, a, b);
    RunConcat(Out(1), a, b);
  }

  lemma {:induction false} LevelPlain(q: State, d: nat, t: Bytes)
    requires AtDepth(q, d) && forall i :: 0 <= i < |t| ==> Step(q, t[i]) == q
    ensures Level(q, d, t) && Run(q, t) == q
    decreases |t|
  {
    if t != [] {
      assert Step(q, t[0]) == q;
      forall i | 0 <= i < |t[1..]| ensures Step(q, t[1..][i]) == q {
        assert t[1..][i] == t[i + 1];
      }
      LevelPlain(q, d, t[1..]);
    }
  }

  lemma ClosedPlain(t: Bytes)
    requires forall i :: 0 <= i < |t| ==> Step(Out(1), t[i]) == Out(1)
    ensures Closed(t)
  {
    LevelPlain(Out(1), 1, t);
  }

  lemma EscapeCharStays(c: char)
    ensures Level(In(1), 1, EscapeChar(c)) && Run(In(1), EscapeChar(c)) == In(1)
  {
    var e := EscapeChar(c);
    if |e| == 1 {
      LevelPlain(In(1), 1, e);
    } else {
      assert e[0] == '\\';
      var rest := e[2..];
      assert e[1..][1..] == rest;
      forall i | 0 <= i < |rest| ensures Step(In(1), rest[i]) == In(1) {
        assert rest[i] == e[i + 2];
      }
      LevelPlain(In(1), 1, rest);
    }
  }

  lemma {:induction false} EscapeStays(s: Bytes)
    ensures Level(In(1), 1, Escape(s)) && Run(In(1), Escape(s)) == In(1)
  {
    if s != [] {
      EscapeCharStays(s[0]);
      EscapeStays(s[1..]);
      LevelConcat(In(1), 1, EscapeChar(s[0]), Escape(s[1..]));
      RunConcat(In(1), EscapeChar(s[0]), Escape(s[1..]));
    }
  }

  lemma QuoteClosed(s: Bytes)
    ensures Closed(Quote(s))
  {
    var e := Escape(s);
    EscapeStays(s);
    LevelConcat(In(1), 1, e, "\"");
    RunConcat(In(1), e, "\"");
    assert Quote(s)[1..] == e + "\"";
  }

  lemma ScalarClosed(v: Scalar)
    ensures Closed(PrintScalar(v))
  {
    match v
    case Str(s) => QuoteClosed(s);
    case Null => ClosedPlain("null");
    case Bool(b) => ClosedPlain("true"); ClosedPlain("false");
    case Num(t) =>
      forall i | 0 <= i < |t| ensures Step(Out(1), t[i]) == Out(1) {
        assert IsNumChar(t[i]);
      }
      ClosedPlain(t);
  }

  lemma {:induction false} ItemsClosed(items: seq<Scalar>)
    requires items != []
    ensures Closed(PrintItems(items))
  {
    ScalarClosed(items[0]);
    if |items| > 1 {
      ItemsClosed(items[1..]);
      ClosedPlain(", ");
      ClosedConcat(", ", PrintItems(items[1..]));
      ClosedConcat(PrintScalar(items[0]), ", " + PrintItems(items[1..]));
    }
  }

  lemma ValueClosed(v: Value)
    ensures Closed(PrintValue(v))
  {
    match v
    case One(s) => ScalarClosed(s);
    case Many(items) =>
      ClosedPlain("[");
      ClosedPlain("]");
      if items == [] {
        ClosedPlain("[]");
      } else {
        ItemsClosed(items);
        ClosedConcat(PrintItems(items), "]");
        ClosedConcat("[", PrintItems(items) + "]");
      }
  }

  lemma MemberClosed(k: Bytes, v: Value)
    ensures Closed(PrintMember(k, v))
  {
    QuoteClosed(k);
    ValueClosed(v);
    ClosedPlain(": ");
    ClosedConcat(": ", PrintValue(v));
    ClosedConcat(Quote(k), ": " + PrintValue(v));
  }

  lemma {:induction false} MembersClosed(keys: seq<Bytes>, m: Object)
    requires keys != [] && forall k :: k in keys ==> k in m
    ensures Closed(PrintMembers(keys, m))
  {
    MemberClosed(keys[0], m[keys[0]]);
    if |keys| > 1 {
      MembersClosed(keys[1..], m);
      ClosedPlain(", ");
      ClosedConcat(", ", PrintMembers(keys[1..], m));
      ClosedConcat(PrintMember(keys[0], m[keys[0]]), ", " + PrintMembers(keys[1..], m));
    }
  }

  /** A printed object is balanced, and between its first and last byte exactly one
      brace is open. */
  ghost predicate Enclosed(t: Bytes) {
    && |t| >= 2 && t[0] == '{'
    && Run(Out(0), t) == Out(0)
    && forall k :: 0 < k < |t| ==> AtDepth(Run(Out(0), t[..k]), 1)
  }

  lemma BracedEnclosed(x: Bytes)
    requires Closed(x)
    ensures Enclosed("{" + (x + "}"))
  {
    var t := "{" + (x + "}");
    assert t[1..] == x + "}";
    RunConcat(Out(1), x, "}");
    forall k | 0 < k < |t| ensures AtDepth(Run(Out(0), t[..k]), 1) {
      assert t[..k][1..] == x[..k - 1];
      LevelPrefix(Out(1), 1, x, k - 1);
    }
  }

  lemma PrintedIsEnclosed(m: Object)
    ensures Enclosed(Print(m))
  {
    if m.Keys == {} {
      assert "{}" == "{" + ([] + "}");
      BracedEnclosed([]);
    } else {
      SortedIsAscending(m.Keys);
      MembersClosed(Sorted(m.Keys), m);
      BracedEnclosed(PrintMembers(Sorted(m.Keys), m));
    }
  }

  // ------------------------------------------------ fragments are not objects

  /** How the automaton started inside a printed object (`b`) trails the one that
      read it from its first byte (`a`): one brace fewer, or with the inside and the
      outside of strings exchanged. */
  ghost predicate Trails(a: State, b: State) {
    || b == Dead
    || (a.Out? && b.Out? && a.depth == b.depth + 1)
    || (a.In? && b.In? && a.depth == b.depth + 1)
    || (a.Esc? && b.Esc? && a.depth == b.depth + 1)
    || (a.Out? && b.In?)
    || (a.In? && b.Out?)
  }

  lemma {:induction false} RunTrails(a: State, b: State, t: Bytes)
    requires Trails(a, b) && Run(a, t) != Dead
    ensures Trails(Run(a, t), Run(b, t))
    decreases |t|
  {
    if t != [] {
      if Step(a, t[0]) == Dead { RunDead(t[1..]); }
      RunTrails(Step(a, t[0]), Step(b, t[0]), t[1..]);
    }
  }

  /** No proper, non-empty suffix of a printed object is balanced. */
  lemma SuffixNotBalanced(t: Bytes, i: nat)
    requires Enclosed(t) && 0 < i < |t|
    ensures Run(Out(0), t[i..]) != Out(0)
  {
    var a := Run(Out(0), t[..i]);
    assert t == t[..i] + t[i..];
    RunConcat(Out(0), t[..i], t[i..]);
    if a.Esc? {
      RunTrails(Step(a, t[i]), Step(Out(0), t[i]), t[i + 1..]);
      assert t[i..][1..] == t[i + 1..];
    } else {
      RunTrails(a, Out(0), t[i..]);
    }
  }

  lemma {:induction false} RunDeeper(q: State, t: Bytes)
    requires q.Out? || q.In? || q.Esc?
    requires Run(q, t) != Dead
    ensures Run(Deeper(q), t) == Deeper(Run(q, t))
    decreases |t|
  {
    if t != [] {
      if Step(q, t[0]) == Dead { RunDead(t[1..]); }
      RunDeeper(Step(q, t[0]), t[1..]);
    }
  }

  ghost function Deeper(q: State): State {
    match q
    case Out(d) => Out(d + 1)
    case In(d) => In(d + 1)
    case Esc(d) => Esc(d + 1)
    case Dead => Dead
  }

  /** A proper prefix of a printed object, with a whole printed object after it, is
      not balanced either. */
  lemma PrefixThenObjectNotBalanced(t: Bytes, k: nat, u: Bytes)
    requires Enclosed(t) && Enclosed(u) && 0 < k < |t|
    ensures Run(Out(0), t[..k] + u) != Out(0)
  {
    var a := Run(Out(0), t[..k]);
    RunConcat(Out(0), t[..k], u);
    match a {
      case Out(_) => RunDeeper(Out(0), u);
      case In(_) => RunTrails(Out(0), a, u);
      case Esc(_) => RunTrails(Step(Out(0), u[0]), Step(a, u[0]), u[1..]);
    }
  }

  // ------------------------------------------------------------ no raw newline

  lemma {:induction false} EscapeHasNoControl(s: Bytes)
    ensures forall i :: 0 <= i < |Escape(s)| ==> Escape(s)[i] >= ' '
  {
    if s != [] {
      EscapeCharHasNoControl(s[0]);
      EscapeHasNoControl(s[1..]);
      hide EscapeChar;
    }
  }

  lemma EscapeCharHasNoControl(c: char)
    ensures forall i :: 0 <= i < |EscapeChar(c)| ==> EscapeChar(c)[i] >= ' '
  {
  }

  /** A text without control characters, so without a newline byte. */
  ghost predicate Printable(t: Bytes) {
    forall i :: 0 <= i < |t| ==> t[i] >= ' '
  }

  lemma ScalarPrintable(v: Scalar)
    ensures Printable(PrintScalar(v))
  {
    match v
    case Str(s) => EscapeHasNoControl(s);
    case Num(t) => assert forall i :: 0 <= i < |t| ==> IsNumChar(t[i]);
    case _ =>
  }

  lemma {:induction false} ItemsPrintable(items: seq<Scalar>)
    requires items != []
    ensures Printable(PrintItems(items))
  {
    ScalarPrintable(items[0]);
    if |items| > 1 { ItemsPrintable(items[1..]); }
  }

  lemma MemberPrintable(k: Bytes, v: Value)
    ensures Printable(PrintMember(k, v))
  {
    hide Escape, PrintScalar, PrintItems;
    EscapeHasNoControl(k);
    match v
    case One(s) => ScalarPrintable(s);
    case Many(items) => if items != [] { ItemsPrintable(items); }
  }

  lemma {:induction false} MembersPrintable(keys: seq<Bytes>, m: Object)
    requires keys != [] && forall k :: k in keys ==> k in m
    ensures Printable(PrintMembers(keys, m))
  {
    hide PrintMember;
    MemberPrintable(keys[0], m[keys[0]]);
    if |keys| > 1 { MembersPrintable(keys[1..], m); }
  }

  lemma PrintedIsPrintable(m: Object)
    ensures Printable(Print(m))
  {
    hide PrintMembers, Sorted;
    if m.Keys != {} {
      SortedIsAscending(m.Keys);
      MembersPrintable(Sorted(m.Keys), m);
    }
  }
}
