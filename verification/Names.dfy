/** Segment file names `segment_NNNN.log` (the pattern shared by the writer, the
    reader, the index and the compactor). */
module Names {
  import opened Order
  import Json

  const PREFIX := "segment_"
  const SUFFIX := ".log"

  /** The largest counter whose name still matches the four-digit pattern. */
  const MAX_COUNTER := 9999

  /** Python's `f"{n:04d}"`. */
  function Pad4(n: nat): string {
    if n < 10000 then
      [Json.DigitChar(n / 1000), Json.DigitChar(n / 100 % 10), Json.DigitChar(n / 10 % 10), Json.DigitChar(n % 10)]
    else
      Json.Decimal(n)
  }

  function Name(counter: nat): string {
    PREFIX + Pad4(counter) + SUFFIX
  }

  predicate IsDigit(c: char) {
    '0' <= c <= '9'
  }

  /** `re.match(r"^segment_(\d{4})\.log$", name)` */
  predicate IsSegment(name: string) {
    && |name| == 16
    && name[..8] == PREFIX
    && IsDigit(name[8]) && IsDigit(name[9]) && IsDigit(name[10]) && IsDigit(name[11])
    && name[12..] == SUFFIX
  }

  function DigitValue(c: char): nat
    requires IsDigit(c)
  {
    c as int - '0' as int
  }

  /** `int(match.group(1))` */
  function Counter(name: string): nat
    requires IsSegment(name)
  {
    1000 * DigitValue(name[8]) + 100 * DigitValue(name[9]) + 10 * DigitValue(name[10]) + DigitValue(name[11])
  }

  lemma DigitCharValue(n: nat)
    requires n < 10
    ensures IsDigit(Json.DigitChar(n)) && DigitValue(Json.DigitChar(n)) == n
  {
  }

  lemma DigitsOf(n: nat)
    requires n <= MAX_COUNTER
    ensures n / 1000 < 10 && n == 1000 * (n / 1000) + 100 * (n / 100 % 10) + 10 * (n / 10 % 10) + n % 10
  {
    assert n / 10 / 10 == n / 100 && n / 100 / 10 == n / 1000;
  }

  /** Up to 9999 a name matches the pattern and parses back to its counter. */
  lemma NameRoundTrip(n: nat)
    requires n <= MAX_COUNTER
    ensures IsSegment(Name(n)) && Counter(Name(n)) == n
  {
    var name := Name(n);
    assert name[..8] == PREFIX && name[12..] == SUFFIX;
    assert name[8] == Pad4(n)[0] && name[9] == Pad4(n)[1] && name[10] == Pad4(n)[2] && name[11] == Pad4(n)[3];
    DigitsOf(n);
    DigitCharValue(n / 1000);
    DigitCharValue(n / 100 % 10);
    DigitCharValue(n / 10 % 10);
    DigitCharValue(n % 10);
  }

  lemma DigitOfSum(a: nat, b: nat, c: nat, d: nat)
    requires a < 10 && b < 10 && c < 10 && d < 10
    ensures var n := 1000 * a + 100 * b + 10 * c + d;
            n / 1000 == a && n / 100 % 10 == b && n / 10 % 10 == c && n % 10 == d
  {
    var n := 1000 * a + 100 * b + 10 * c + d;
    assert n / 100 == 10 * a + b;
    assert n / 10 == 100 * a + 10 * b + c;
  }

  lemma DigitValueChar(c: char)
    requires IsDigit(c)
    ensures DigitValue(c) < 10 && Json.DigitChar(DigitValue(c)) == c
  {
  }

  lemma Pad4OfDigits(a: nat, b: nat, c: nat, d: nat)
    requires a < 10 && b < 10 && c < 10 && d < 10
    ensures var n := 1000 * a + 100 * b + 10 * c + d;
            n <= MAX_COUNTER && Pad4(n) == [Json.DigitChar(a), Json.DigitChar(b), Json.DigitChar(c), Json.DigitChar(d)]
  {
    hide Json.DigitChar;
    DigitOfSum(a, b, c, d);
  }

  /** Every name that matches the pattern is the name of its counter. */
  lemma SegmentIsNamed(name: string)
    requires IsSegment(name)
    ensures Counter(name) <= MAX_COUNTER && Name(Counter(name)) == name
  {
    hide Pad4;
    DigitValueChar(name[8]);
    DigitValueChar(name[9]);
    DigitValueChar(name[10]);
    DigitValueChar(name[11]);
    Pad4OfDigits(DigitValue(name[8]), DigitValue(name[9]), DigitValue(name[10]), DigitValue(name[11]));
    hide IsDigit, DigitValue, Json.DigitChar;
    assert name[8..12] == [name[8], name[9], name[10], name[11]];
    assert name == name[..8] + name[8..12] + name[12..];
  }

  lemma {:induction false} LeSharedPrefix(p: string, a: string, b: string)
    ensures Le(p + a, p + b) <==> Le(a, b)
  {
    if p == [] {
      assert p + a == a && p + b == b;
    } else {
      assert (p + a)[1..] == p[1..] + a && (p + b)[1..] == p[1..] + b;
      LeSharedPrefix(p[1..], a, b);
    }
  }

  lemma LeDigits(a: nat, b: nat, x: string, y: string)
    requires a < 10 && b < 10
    ensures Le([Json.DigitChar(a)] + x, [Json.DigitChar(b)] + y) <==> a < b || (a == b && Le(x, y))
  {
    assert ([Json.DigitChar(a)] + x)[1..] == x && ([Json.DigitChar(b)] + y)[1..] == y;
  }

  function FourDigits(a: nat, b: nat, c: nat, d: nat): string
    requires a < 10 && b < 10 && c < 10 && d < 10
  {
    [Json.DigitChar(a)] + ([Json.DigitChar(b)] + ([Json.DigitChar(c)] + ([Json.DigitChar(d)] + SUFFIX)))
  }

  lemma FourDigitsOrder(a: nat, b: nat, c: nat, d: nat, a': nat, b': nat, c': nat, d': nat)
    requires a < 10 && b < 10 && c < 10 && d < 10
    requires a' < 10 && b' < 10 && c' < 10 && d' < 10
    ensures Le(FourDigits(a, b, c, d), FourDigits(a', b', c', d')) <==>
            1000 * a + 100 * b + 10 * c + d <= 1000 * a' + 100 * b' + 10 * c' + d'
  {
    var x3, y3 := [Json.DigitChar(d)] + SUFFIX, [Json.DigitChar(d')] + SUFFIX;
    var x2, y2 := [Json.DigitChar(c)] + x3, [Json.DigitChar(c')] + y3;
    var x1, y1 := [Json.DigitChar(b)] + x2, [Json.DigitChar(b')] + y2;
    LeDigits(a, a', x1, y1);
    LeDigits(b, b', x2, y2);
    LeDigits(c, c', x3, y3);
    LeDigits(d, d', SUFFIX, SUFFIX);
    LeTotal(SUFFIX, SUFFIX);
  }

  lemma NameDigits(n: nat)
    requires n <= MAX_COUNTER
    ensures n / 1000 < 10
    ensures Name(n) == PREFIX + FourDigits(n / 1000, n / 100 % 10, n / 10 % 10, n % 10)
  {
  }

  /** Up to 9999 the lexicographic order of names is the order of counters. */
  lemma NameOrder(m: nat, n: nat)
    requires m <= MAX_COUNTER && n <= MAX_COUNTER
    ensures Le(Name(m), Name(n)) <==> m <= n
  {
    NameDigits(m);
    NameDigits(n);
    var x := FourDigits(m / 1000, m / 100 % 10, m / 10 % 10, m % 10);
    var y := FourDigits(n / 1000, n / 100 % 10, n / 10 % 10, n % 10);
    LeSharedPrefix(PREFIX, x, y);
    FourDigitsOrder(m / 1000, m / 100 % 10, m / 10 % 10, m % 10, n / 1000, n / 100 % 10, n / 10 % 10, n % 10);
    DigitsOf(m);
    DigitsOf(n);
  }

  lemma NameInjective(m: nat, n: nat)
    requires m <= MAX_COUNTER && n <= MAX_COUNTER && Name(m) == Name(n)
    ensures m == n
  {
    hide Name, IsSegment, Counter;
    NameRoundTrip(m);
    NameRoundTrip(n);
  }

  /** From 10000 on a name has all its digits, five or more, and does not match the pattern. */
  lemma LongNameIsNoSegment(n: nat)
    requires n > MAX_COUNTER
    ensures !IsSegment(Name(n)) && Name(n) == "segment_" + Json.Decimal(n) + ".log"
  {
    LongDecimal(n);
    assert |Name(n)| > 16;
  }

  lemma LongDecimal(n: nat)
    requires n >= 10000
    ensures |Json.Decimal(n)| >= 5
  {
    OneMoreDigit(n);
    OneMoreDigit(n / 10);
    OneMoreDigit(n / 10 / 10);
    OneMoreDigit(n / 10 / 10 / 10);
    assert n / 10 / 10 / 10 >= 10;
  }

  lemma OneMoreDigit(n: nat)
    ensures |Json.Decimal(n)| >= 1
    ensures n >= 10 ==> |Json.Decimal(n)| == |Json.Decimal(n / 10)| + 1
  {
  }

  /** The name of a counter: the prefix, its four decimal digits, the suffix. */
  lemma NameText(a: nat, b: nat, c: nat, d: nat)
    requires a < 10 && b < 10 && c < 10 && d < 10
    ensures Name(1000 * a + 100 * b + 10 * c + d) ==
            "segment_" + ["0123456789"[a], "0123456789"[b], "0123456789"[c], "0123456789"[d]] + ".log"
    ensures MAX_COUNTER == 9999
  {
    DigitOfSum(a, b, c, d);
  }

  /** The names of counters `lo`, ..., `hi - 1`. */
  function NameRange(lo: nat, hi: nat): seq<string>
    requires lo <= hi
  {
    seq(hi - lo, i requires 0 <= i < hi - lo => Name(lo + i))
  }

  /** `[n for n in sorted(os.listdir(d)) if pattern.match(n)]` */
  function Listing(directory: set<string>): seq<string> {
    Sorted(set n | n in directory && IsSegment(n))
  }

  lemma {:induction false} NameRangeAscending(n: nat)
    requires n <= MAX_COUNTER
    ensures Ascending(NameRange(1, n + 1))
  {
    hide Name, Le;
    var q := NameRange(1, n + 1);
    forall i, j | 0 <= i < j < |q| ensures Le(q[i], q[j]) && q[i] != q[j] {
      NameOrder(i + 1, j + 1);
      if q[i] == q[j] { NameInjective(i + 1, j + 1); }
    }
  }

  lemma InNameRange(x: string, n: nat)
    requires n <= MAX_COUNTER
    ensures x in NameRange(1, n + 1) <==> IsSegment(x) && 1 <= Counter(x) <= n
  {
    hide Name, IsSegment, Counter;
    var q := NameRange(1, n + 1);
    if x in q {
      var i :| 0 <= i < |q| && q[i] == x;
      NameRoundTrip(i + 1);
    }
    if IsSegment(x) && 1 <= Counter(x) <= n {
      SegmentIsNamed(x);
      assert q[Counter(x) - 1] == x;
    }
  }

  /** The sorted listing of a directory that holds exactly the segments 1, ..., n
      (and any files that are not segments) visits them in the order of creation. */
  lemma ListingOfRange(directory: set<string>, n: nat)
    requires n <= MAX_COUNTER
    requires forall c :: 1 <= c <= n ==> Name(c) in directory
    requires forall x :: x in directory && IsSegment(x) ==> 1 <= Counter(x) <= n
    ensures Listing(directory) == NameRange(1, n + 1)
  {
    hide Name, IsSegment, Counter, Sorted, Ascending;
    var q := NameRange(1, n + 1);
    NameRangeAscending(n);
    var s := set x | x in directory && IsSegment(x);
    forall x ensures x in q <==> x in s {
      InNameRange(x, n);
      if x in q { SegmentIsNamed(x); }
    }
    assert Elements(q) == s;
    AscendingIsSorted(q);
  }
}
