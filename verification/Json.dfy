/** The JSON text of a flat record, as `json.dumps(..., sort_keys=True,
    ensure_ascii=False)` prints it and `json.loads` reads it back. */
module Json {
  import opened Basics
  import opened Order

  predicate IsNumChar(c: char) {
    '0' <= c <= '9' || c in "+-.eE"
  }

  predicate IsNumToken(t: Bytes) {
    t != [] && forall i :: 0 <= i < |t| ==> IsNumChar(t[i])
  }

  /** A JSON number, kept as the text that was read or will be printed. */
  type NumToken = t: Bytes | IsNumToken(t) witness "0"

  datatype Scalar = Null | Bool(b: bool) | Num(token: NumToken) | Str(text: Bytes)
  datatype Value = One(scalar: Scalar) | Many(items: seq<Scalar>)
  type Object = map<Bytes, Value>

  // ---------------------------------------------------------------- printing

  function DigitChar(n: nat): char
    requires n < 16
  {
    "0123456789abcdef"[n]
  }

  function Decimal(n: nat): (t: NumToken)
  {
    if n < 10 then
      [DigitChar(n)]
    else
      Decimal(n / 10) + [DigitChar(n % 10)]
  }

  /** String escaping of section 7 of RFC 8259: the quote, the backslash and every
      control character are escaped, everything else is copied. */
  function EscapeChar(c: char): Bytes {
    if c == '"' then "\\\""
    else if c == '\\' then "\\\\"
    else if c == '\n' then "\\n"
    else if c == '\r' then "\\r"
    else if c == '\t' then "\\t"
    else if c == 8 as char then "\\b"
    else if c == 12 as char then "\\f"
    else if c < ' ' then "\\u00" + [DigitChar(c as int / 16), DigitChar(c as int % 16)]
    else [c]
  }

  function Escape(s: Bytes): Bytes {
    if s == [] then [] else EscapeChar(s[0]) + Escape(s[1..])
  }

  function Quote(s: Bytes): Bytes {
    "\"" + (Escape(s) + "\"")
  }

  function PrintScalar(v: Scalar): Bytes {
    match v
    case Null => "null"
    case Bool(b) => if b then "true" else "false"
    case Num(t) => t
    case Str(s) => Quote(s)
  }

  function PrintItems(items: seq<Scalar>): Bytes
    requires items != []
  {
    if |items| == 1 then PrintScalar(items[0])
    else PrintScalar(items[0]) + (", " + PrintItems(items[1..]))
  }

  function PrintValue(v: Value): Bytes {
    match v
    case One(s) => PrintScalar(s)
    case Many(items) => if items == [] then "[]" else "[" + (PrintItems(items) + "]")
  }

  function PrintMember(k: Bytes, v: Value): Bytes {
    Quote(k) + (": " + PrintValue(v))
  }

  function PrintMembers(keys: seq<Bytes>, m: Object): Bytes
    requires keys != [] && forall k :: k in keys ==> k in m
  {
    if |keys| == 1 then PrintMember(keys[0], m[keys[0]])
    else PrintMember(keys[0], m[keys[0]]) + (", " + PrintMembers(keys[1..], m))
  }

  function Print(m: Object): Bytes {
    if m.Keys == {} then "{}"
    else
      SortedIsAscending(m.Keys);
      "{" + (PrintMembers(Sorted(m.Keys), m) + "}")
  }

  // ----------------------------------------------------------------- parsing

  datatype Parsed<+T> = Fail | Ok(value: T, rest: Bytes)

  predicate IsSpace(c: char) {
    c == ' ' || c == '\t' || c == '\n' || c == '\r'
  }

  function SkipSpace(t: Bytes): (r: Bytes)
    ensures |r| <= |t|
    ensures r != [] ==> !IsSpace(r[0])
  {
    if t != [] && IsSpace(t[0]) then SkipSpace(t[1..]) else t
  }

  function HexDigit(c: char): Option<nat> {
    if '0' <= c <= '9' then Some(c as int - '0' as int)
    else if 'a' <= c <= 'f' then Some(c as int - 'a' as int + 10)
    else if 'A' <= c <= 'F' then Some(c as int - 'A' as int + 10)
    else None
  }

  /** The rest of an escape sequence, after its backslash. */
  function ParseEscape(t: Bytes): (p: Parsed<char>)
    ensures p.Ok? ==> |p.rest| < |t|
  {
    if t == [] then Fail
    else if t[0] == '"' || t[0] == '\\' || t[0] == '/' then Ok(t[0], t[1..])
    else if t[0] == 'b' then Ok(8 as char, t[1..])
    else if t[0] == 'f' then Ok(12 as char, t[1..])
    else if t[0] == 'n' then Ok('\n', t[1..])
    else if t[0] == 'r' then Ok('\r', t[1..])
    else if t[0] == 't' then Ok('\t', t[1..])
    else if t[0] == 'u' && |t| >= 5 then
      match (HexDigit(t[1]), HexDigit(t[2]), HexDigit(t[3]), HexDigit(t[4]))
      case (Some(a), Some(b), Some(c), Some(d)) =>
        var code := 4096 * a + 256 * b + 16 * c + d;
        if code < 128 then Ok(code as char, t[5..]) else Fail
      case _ => Fail
    else Fail
  }

  /** The rest of a string, after its opening quote. */
  function ParseString(t: Bytes): (p: Parsed<Bytes>)
    ensures p.Ok? ==> |p.rest| < |t|
    decreases |t|
  {
    if t == [] then Fail
    else if t[0] == '"' then Ok([], t[1..])
    else if t[0] == '\\' then
      match ParseEscape(t[1..])
      case Fail => Fail
      case Ok(c, r) => Prepend(c, ParseString(r))
    else if t[0] < ' ' then Fail
    else Prepend(t[0], ParseString(t[1..]))
  }

  function Prepend<T>(c: T, p: Parsed<seq<T>>): Parsed<seq<T>> {
    match p
    case Fail => Fail
    case Ok(s, r) => Ok([c] + s, r)
  }

  /** The longest run of number characters at the start of `t`. */
  function NumLength(t: Bytes): (n: nat)
    ensures n <= |t|
    ensures forall i :: 0 <= i < n ==> IsNumChar(t[i])
  {
    if t != [] && IsNumChar(t[0]) then 1 + NumLength(t[1..]) else 0
  }

  function ParseScalar(t: Bytes): (p: Parsed<Scalar>)
    ensures p.Ok? ==> |p.rest| < |t|
  {
    if t == [] then Fail
    else if t[0] == '"' then
      match ParseString(t[1..])
      case Fail => Fail
      case Ok(s, r) => Ok(Str(s), r)
    else if "null" <= t then Ok(Null, t[4..])
    else if "true" <= t then Ok(Bool(true), t[4..])
    else if "false" <= t then Ok(Bool(false), t[5..])
    else if NumLength(t) > 0 then Ok(Num(t[..NumLength(t)]), t[NumLength(t)..])
    else Fail
  }

  /** The rest of a non-empty array, after its bracket or one of its commas. */
  function ParseItems(t: Bytes): (p: Parsed<seq<Scalar>>)
    ensures p.Ok? ==> |p.rest| < |t|
    decreases |t|
  {
    match ParseScalar(SkipSpace(t))
    case Fail => Fail
    case Ok(v, r) =>
      var u := SkipSpace(r);
      if u == [] then Fail
      else if u[0] == ',' then Prepend(v, ParseItems(u[1..]))
      else if u[0] == ']' then Ok([v], u[1..])
      else Fail
  }

  function ParseValue(t: Bytes): (p: Parsed<Value>)
    ensures p.Ok? ==> |p.rest| < |t|
  {
    if t != [] && t[0] == '[' then
      var u := SkipSpace(t[1..]);
      if u != [] && u[0] == ']' then Ok(Many([]), u[1..])
      else
        match ParseItems(t[1..])
        case Fail => Fail
        case Ok(items, r) => Ok(Many(items), r)
    else
      match ParseScalar(t)
      case Fail => Fail
      case Ok(v, r) => Ok(One(v), r)
  }

  function ParseMember(t: Bytes): (p: Parsed<(Bytes, Value)>)
    ensures p.Ok? ==> |p.rest| < |t|
  {
    var u := SkipSpace(t);
    if u == [] || u[0] != '"' then Fail
    else
      match ParseString(u[1..])
      case Fail => Fail
      case Ok(k, r) =>
        var w := SkipSpace(r);
        if w == [] || w[0] != ':' then Fail
        else
          match ParseValue(SkipSpace(w[1..]))
          case Fail => Fail
          case Ok(v, rest) => Ok((k, v), rest)
  }

  /** The rest of a non-empty object, after its brace or one of its commas.  As in
      Python, the last of several members with one key wins. */
  function ParseMembers(t: Bytes, m: Object): (p: Parsed<Object>)
    decreases |t|
  {
    match ParseMember(t)
    case Fail => Fail
    case Ok((k, v), r) =>
      var u := SkipSpace(r);
      if u == [] then Fail
      else if u[0] == ',' then ParseMembers(u[1..], m[k := v])
      else if u[0] == '}' then Ok(m[k := v], u[1..])
      else Fail
  }

  function ParseObject(t: Bytes): Parsed<Object> {
    var u := SkipSpace(t);
    if u == [] || u[0] != '{' then Fail
    else
      var w := SkipSpace(u[1..]);
      if w != [] && w[0] == '}' then Ok(map[], w[1..]) else ParseMembers(u[1..], map[])
  }

  /** `json.loads`: one object and nothing but white space around it. */
  function Parse(t: Bytes): Option<Object> {
    match ParseObject(t)
    case Fail => None
    case Ok(m, r) => if SkipSpace(r) == [] then Some(m) else None
  }
}
