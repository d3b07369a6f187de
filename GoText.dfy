/**
 * The parts of Go's `strings`, `strconv` and integer arithmetic that the
 * interpreter relies on.  A Go `string` is modelled as a sequence of
 * characters, one per byte.  Converting a byte or rune to a string
 * (`EncodeRune`) writes its UTF-8 bytes; case mapping of a text is
 * modelled on ASCII bytes only, and of a single rune (`UpperRune`) up to
 * U+00FF.
 */
module GoText {
  import opened Common

  // ---------------------------------------------------------------------
  // Character classes

  /** The ASCII white space `strings.TrimSpace` removes; its Unicode white space is not modelled. */
  predicate IsSpace(c: char)
  {
    c == ' ' || c == '\t' || c == '\n' || c == '\r' || c == '\U{0B}' || c == '\U{0C}'
  }

  predicate IsDigit(c: char)
  {
    '0' <= c <= '9'
  }

  /** `strings.ToUpper` on one ASCII byte. */
  function UpperChar(c: char): char
  {
    if 'a' <= c <= 'z' then (c as int - 32) as char else c
  }

  /** `strings.ToLower` on one ASCII byte. */
  function LowerChar(c: char): char
  {
    if 'A' <= c <= 'Z' then (c as int + 32) as char else c
  }

  /** The lower-case letters among the runes up to U+00FF. */
  predicate LowerLetter(c: char)
  {
    'a' <= c <= 'z' || c == '\U{B5}' || ('\U{E0}' <= c <= '\U{FE}' && c != '\U{F7}') || c == '\U{FF}'
  }

  /**
   * `unicode.ToUpper` on a rune up to U+00FF, which is what
   * `strings.ToUpper` applies to each rune of a text that is not pure
   * ASCII: the Latin-1 letters move down by 0x20, except that the micro
   * sign becomes the Greek capital mu and `ÿ` becomes U+0178.
   */
  function UpperRune(c: char): (r: char)
    ensures c < '\U{80}' ==> r == UpperChar(c)
    ensures (r < '\U{80}') == (c < '\U{80}')
    ensures !LowerLetter(c) ==> r == c
    ensures LowerLetter(c) ==> r != c && !LowerLetter(r)
  {
    if c < '\U{80}' then UpperChar(c)
    else if c == '\U{B5}' then '\U{039C}'
    else if c == '\U{FF}' then '\U{0178}'
    else if '\U{E0}' <= c <= '\U{FE}' && c != '\U{F7}' then (c as int - 0x20) as char
    else c
  }

  /**
   * `strings.ToUpper(string(b))` for one byte `b`: its ASCII fast path
   * upper-cases the byte itself; from 0x80 up it is the UTF-8 text of
   * the upper-cased rune, never a single byte.
   */
  function UpperByteText(b: char): (u: string)
    ensures b < '\U{80}' ==> u == [UpperChar(b)]
    ensures b >= '\U{80}' ==> |u| >= 2
  {
    if b < '\U{80}' then [UpperChar(b)] else EncodeRune(UpperRune(b))
  }

  /** Upper-casing a rune twice is upper-casing it once. */
  lemma UpperRuneIdempotent(c: char)
    ensures UpperRune(UpperRune(c)) == UpperRune(c)
  {
  }

  function Upper(s: string): string
  {
    seq(|s|, i requires 0 <= i < |s| => UpperChar(s[i]))
  }

  function Lower(s: string): string
  {
    seq(|s|, i requires 0 <= i < |s| => LowerChar(s[i]))
  }

  // ---------------------------------------------------------------------
  // strings.TrimSpace

  /** The index of the first byte at or after `i` that is not white space, or `|s|`. */
  function FirstNonSpace(s: string, i: nat): (j: nat)
    requires i <= |s|
    ensures i <= j <= |s| && (j < |s| ==> !IsSpace(s[j]))
    ensures forall k :: i <= k < j ==> IsSpace(s[k])
    decreases |s| - i
  {
    if i < |s| && IsSpace(s[i]) then FirstNonSpace(s, i + 1) else i
  }

  /** The end of `s[lo..j]` once its trailing white space is cut off. */
  function EndNonSpace(s: string, lo: nat, j: nat): (e: nat)
    requires lo <= j <= |s|
    ensures lo <= e <= j && (e > lo ==> !IsSpace(s[e - 1]))
    ensures forall k :: e <= k < j ==> IsSpace(s[k])
  {
    if j > lo && IsSpace(s[j - 1]) then EndNonSpace(s, lo, j - 1) else j
  }

  /**
   * `strings.TrimSpace`: the longest middle slice of `s` that neither
   * starts nor ends with white space; everything cut off is white space.
   */
  function TrimSpace(s: string): (r: string)
    ensures var i := FirstNonSpace(s, 0);
            i + |r| <= |s| && r == s[i..i + |r|]
            && (forall k :: 0 <= k < i ==> IsSpace(s[k]))
            && (forall k :: i + |r| <= k < |s| ==> IsSpace(s[k]))
            && (r == [] || (!IsSpace(r[0]) && !IsSpace(r[|r| - 1])))
  {
    var i := FirstNonSpace(s, 0);
    s[i..EndNonSpace(s, i, |s|)]
  }

  /** Trimming keeps a text's first two bytes when neither is white space. */
  lemma TrimSpaceKeepsLead(s: string)
    requires |s| >= 2 && !IsSpace(s[0]) && !IsSpace(s[1])
    ensures |TrimSpace(s)| >= 2 && TrimSpace(s)[..2] == s[..2]
  {
    assert FirstNonSpace(s, 0) == 0;
  }

  /** Trimming text that already has no white space at either end changes nothing. */
  lemma TrimSpaceKeeps(s: string)
    requires s == [] || (!IsSpace(s[0]) && !IsSpace(s[|s| - 1]))
    ensures TrimSpace(s) == s
  {
  }

  /** Trimming one trailing blank off a word that has no white space at either end. */
  lemma TrimSpaceDropsBlank(s: string)
    requires s == [] || (!IsSpace(s[0]) && !IsSpace(s[|s| - 1]))
    ensures TrimSpace(s + " ") == s
  {
    var t := s + " ";
    if s == [] {
      assert FirstNonSpace(t, 0) == 1;
    } else {
      assert FirstNonSpace(t, 0) == 0;
      assert EndNonSpace(t, 0, |s|) == |s|;
      assert t[..|s|] == s;
    }
  }

  // ---------------------------------------------------------------------
  // strings.Join, strings.Split, strings.Replace

  /** `strings.Join`. */
  function Join(parts: seq<string>, sep: string): (r: string)
    ensures |parts| == 1 ==> r == parts[0]
  {
    if |parts| == 0 then ""
    else if |parts| == 1 then parts[0]
    else parts[0] + sep + Join(parts[1..], sep)
  }

  lemma JoinCons(p: string, rest: seq<string>, sep: string)
    requires |rest| >= 1
    ensures Join([p] + rest, sep) == p + sep + Join(rest, sep)
  {
    assert ([p] + rest)[1..] == rest;
  }

  /**
   * `strings.Split(s, sep)` for a one-byte separator: the pieces between
   * separators, one more piece than there are separators.  Joining the
   * pieces back with the separator gives `s` again, and no piece holds the
   * separator.
   */
  function Split(s: string, sep: char): (r: seq<string>)
    ensures |r| >= 1
    ensures forall i :: 0 <= i < |r| ==> sep !in r[i]
    ensures Join(r, [sep]) == s
  {
    if s == [] then [""]
    else
      var t := Split(s[1..], sep);
      if s[0] == sep then
        JoinCons("", t, [sep]);
        assert [s[0]] + s[1..] == s;
        [""] + t
      else
        var r := [[s[0]] + t[0]] + t[1..];
        assert Join(r, [sep]) == s by {
          if |t| == 1 {
            assert Join(r, [sep]) == [s[0]] + t[0];
          } else {
            JoinCons([s[0]] + t[0], t[1..], [sep]);
            JoinCons(t[0], t[1..], [sep]);
            assert t == [t[0]] + t[1..];
          }
          assert [s[0]] + s[1..] == s;
        }
        r
  }

  /** Does `pat` occur in `s` starting at index `k`? */
  predicate OccursAt(s: string, pat: string, k: nat)
  {
    k + |pat| <= |s| && s[k..k + |pat|] == pat
  }

  /**
   * `strings.Replace(s, pat, by, -1)`: one pass from left to right,
   * replacing non-overlapping occurrences; text produced by a replacement
   * is never scanned again.
   */
  function Replace(s: string, pat: string, repl: string): (r: string)
    requires |pat| >= 1
    ensures (forall k :: 0 <= k < |s| ==> !OccursAt(s, pat, k)) ==> r == s
    decreases |s|
  {
    if |s| < |pat| then s
    else if s[..|pat|] == pat then
      assert OccursAt(s, pat, 0);
      repl + Replace(s[|pat|..], pat, repl)
    else
      var rest := Replace(s[1..], pat, repl);
      assert (forall k :: 0 <= k < |s| ==> !OccursAt(s, pat, k)) ==>
             (forall k :: 0 <= k < |s[1..]| ==> !OccursAt(s[1..], pat, k)) by {
        if forall k :: 0 <= k < |s| ==> !OccursAt(s, pat, k) {
          forall k | 0 <= k < |s[1..]| ensures !OccursAt(s[1..], pat, k) {
            assert !OccursAt(s, pat, k + 1);
            if k + |pat| <= |s[1..]| {
              assert s[1..][k..k + |pat|] == s[k + 1..k + 1 + |pat|];
            }
          }
        }
      }
      [s[0]] + rest
  }

  /** Replacing a one-byte pattern works byte by byte, so it distributes over concatenation. */
  lemma {:induction false} ReplaceAppend(a: string, b: string, c: char, repl: string)
    ensures Replace(a + b, [c], repl) == Replace(a, [c], repl) + Replace(b, [c], repl)
    decreases |a|
  {
    if a == [] {
      assert a + b == b;
    } else {
      assert (a + b)[1..] == a[1..] + b;
      assert (a + b)[..1] == a[..1];
      ReplaceAppend(a[1..], b, c, repl);
    }
  }

  // ---------------------------------------------------------------------
  // fmt.Sprintf("%d", n)

  function DigitChar(d: nat): char
    requires d < 10
  {
    ('0' as int + d) as char
  }

  /** The decimal digits of a natural number, without leading zeros. */
  function DecimalDigits(n: nat): (r: string)
    ensures |r| >= 1 && r[0] != '-'
    ensures forall k :: 0 <= k < |r| ==> IsDigit(r[k])
    ensures n > 0 ==> r[0] != '0'
    ensures n == 0 ==> r == "0"
  {
    if n < 10 then [DigitChar(n)] else DecimalDigits(n / 10) + [DigitChar(n % 10)]
  }

  /** `fmt.Sprintf("%d", n)`. */
  function DecimalString(n: int): string
  {
    if n < 0 then "-" + DecimalDigits(-n) else DecimalDigits(n)
  }

  // ---------------------------------------------------------------------
  // strconv.ParseInt(s, 0, 64)

  const TwoTo63: int := 0x8000_0000_0000_0000
  const TwoTo64: int := 0x1_0000_0000_0000_0000

  predicate IsInt64(x: int)
  {
    -TwoTo63 <= x < TwoTo63
  }

  /** The value of an ASCII digit or letter as used by `strconv` (36 for anything else). */
  function DigitValue(c: char): nat
  {
    if '0' <= c <= '9' then c as int - '0' as int
    else if 'a' <= c <= 'z' then c as int - 'a' as int + 10
    else if 'A' <= c <= 'Z' then c as int - 'A' as int + 10
    else 36
  }

  predicate AllDigitsIn(s: string, base: nat)
  {
    forall k :: 0 <= k < |s| ==> DigitValue(s[k]) < base
  }

  /** The value of a digit string in the given base, most significant digit first. */
  function DigitsValue(s: string, base: nat): nat
  {
    if s == [] then 0
    else DigitsValue(s[..|s| - 1], base) * base + DigitValue(s[|s| - 1])
  }

  /**
   * `strconv.ParseUint(s, 0, 64)` without digit-separating underscores:
   * a leading `0b`, `0o` or `0x` (with at least one byte after it)
   * selects base 2, 8 or 16, any other leading `0` selects octal, and
   * otherwise the text is decimal.  `None` is Go's syntax or range error.
   */
  function ParseUint64(s: string): (r: Option<nat>)
    ensures r.Some? ==> r.value < TwoTo64
  {
    if s == [] then None
    else
      var (base, digits) :=
        if s[0] != '0' then (10, s)
        else if |s| >= 3 && LowerChar(s[1]) == 'b' then (2, s[2..])
        else if |s| >= 3 && LowerChar(s[1]) == 'o' then (8, s[2..])
        else if |s| >= 3 && LowerChar(s[1]) == 'x' then (16, s[2..])
        else (8, s[1..]);
      if !AllDigitsIn(digits, base) then None
      else
        var n := DigitsValue(digits, base);
        if n < TwoTo64 then Some(n) else None
  }

  /**
   * `strconv.ParseInt(s, 0, 64)`: an optional sign, then `ParseUint64`,
   * then the signed 64-bit range check.
   */
  function ParseInt64(s: string): (r: Option<int>)
    ensures r.Some? ==> IsInt64(r.value)
  {
    if s == [] then None
    else
      var neg := s[0] == '-';
      var body := if s[0] == '+' || s[0] == '-' then s[1..] else s;
      match ParseUint64(body)
      case None => None
      case Some(u) =>
        if !neg && u >= TwoTo63 then None
        else if neg && u > TwoTo63 then None
        else
          var v: int := if neg then 0 - (u as int) else u as int;
          Some(v)
  }

  lemma {:induction false} DigitsValueOfDecimal(n: nat)
    ensures AllDigitsIn(DecimalDigits(n), 10)
    ensures DigitsValue(DecimalDigits(n), 10) == n
  {
    var d := DecimalDigits(n);
    if n >= 10 {
      DigitsValueOfDecimal(n / 10);
      assert d[..|d| - 1] == DecimalDigits(n / 10);
    }
  }

  /** `%d` followed by `strconv.ParseInt(·, 0, 64)` gives back every 64-bit integer. */
  lemma ParseIntOfDecimal(n: int)
    requires IsInt64(n)
    ensures ParseInt64(DecimalString(n)) == Some(n)
  {
    var m := if n < 0 then -n else n;
    DigitsValueOfDecimal(m);
    var d := DecimalDigits(m);
    if m == 0 {
      assert ParseUint64(d) == Some(0) by { assert d[1..] == ""; }
    } else {
      assert ParseUint64(d) == Some(m);
    }
    if n < 0 {
      assert DecimalString(n)[1..] == d;
    }
  }

  // ---------------------------------------------------------------------
  // strconv.ParseFloat(s, 64), syntax only

  /** The end of the run of decimal digits starting at `i`. */
  function DigitRun(s: string, i: nat): (j: nat)
    requires i <= |s|
    ensures i <= j <= |s|
    ensures forall k :: i <= k < j ==> IsDigit(s[k])
    ensures j == |s| || !IsDigit(s[j])
    decreases |s| - i
  {
    if i < |s| && IsDigit(s[i]) then DigitRun(s, i + 1) else i
  }

  /** An exponent tail `[+-]?digits` filling `s[i..]`. */
  predicate ExponentFrom(s: string, i: nat)
    requires i <= |s|
  {
    var j := if i < |s| && (s[i] == '+' || s[i] == '-') then i + 1 else i;
    j < |s| && DigitRun(s, j) == |s|
  }

  /**
   * The end of the mantissa of `s`: its integer digits are `s[..a]` with
   * `a == DigitRun(s, 0)`, and when `s[a]` is a point its fraction digits
   * are `s[a + 1..]` up to the returned end.
   */
  function MantissaEnd(s: string): (b: nat)
    ensures DigitRun(s, 0) <= b <= |s|
  {
    var a := DigitRun(s, 0);
    if a < |s| && s[a] == '.' then DigitRun(s, a + 1) else a
  }

  /** `digits[.digits][(e|E)[+-]digits]` with at least one mantissa digit. */
  predicate DecimalFloat(s: string)
  {
    var a := DigitRun(s, 0);
    var b := MantissaEnd(s);
    var mantissaDigits := if b > a then b - 1 else a;
    mantissaDigits >= 1 &&
    (b == |s| || ((s[b] == 'e' || s[b] == 'E') && ExponentFrom(s, b + 1)))
  }

  /** The mantissa digits of `s` without the point. */
  function MantissaDigits(s: string): string
  {
    var a := DigitRun(s, 0);
    var b := MantissaEnd(s);
    s[..a] + (if b > a then s[a + 1..b] else "")
  }

  /** How many of the mantissa digits follow the point. */
  function FractionLength(s: string): nat
  {
    var a := DigitRun(s, 0);
    var b := MantissaEnd(s);
    if b > a then b - a - 1 else 0
  }

  /** The value of the exponent after `e`/`E`, zero without one. */
  function ExponentValue(s: string): int
  {
    var b := MantissaEnd(s);
    if b + 1 >= |s| then 0
    else
      var j := if s[b + 1] == '+' || s[b + 1] == '-' then b + 2 else b + 1;
      var v := DigitsValue(s[j..], 10);
      if s[b + 1] == '-' then -(v as int) else v
  }

  function Pow(b: nat, e: nat): nat
  {
    if e == 0 then 1 else b * Pow(b, e - 1)
  }

  /**
   * The smallest magnitude that rounds to infinity in float64: halfway
   * between the largest finite value, (2^53 - 1) * 2^971, and 2^1024;
   * the tie rounds to the even neighbour, which is 2^1024.
   */
  function FloatOverflow(): int
  {
    Pow(2, 1024) - Pow(2, 970)
  }

  /**
   * Does the decimal float `s` (without sign) denote a magnitude that
   * rounds to infinity?  Its value is `m * 10^e` with `m` the mantissa
   * digits and `e` the exponent less the fraction length.
   */
  predicate Overflows(s: string)
  {
    var m := DigitsValue(MantissaDigits(s), 10);
    var e := ExponentValue(s) - FractionLength(s);
    if e >= 0 then m * Pow(10, e) >= FloatOverflow()
    else m >= FloatOverflow() * Pow(10, -e)
  }

  /**
   * Does `strconv.ParseFloat(s, 64)` succeed?  Modelled: an optional sign
   * followed by `inf`, `infinity` (any case) or a decimal float, or `nan`
   * (any case, no sign).  A decimal float whose magnitude rounds to
   * infinity is a range error; one that rounds to zero is not an error.
   */
  predicate ParsesAsFloat(s: string)
  {
    var body := if |s| > 0 && (s[0] == '+' || s[0] == '-') then s[1..] else s;
    Lower(body) == "inf" || Lower(body) == "infinity" || Lower(s) == "nan" ||
    (DecimalFloat(body) && !Overflows(body))
  }

  lemma {:induction false} PowPositive(b: nat, e: nat)
    requires b >= 1
    ensures Pow(b, e) >= 1
  {
    if e > 0 {
      PowPositive(b, e - 1);
    }
  }

  lemma {:induction false} PowAdd(b: nat, m: nat, n: nat)
    ensures Pow(b, m + n) == Pow(b, m) * Pow(b, n)
  {
    if m > 0 {
      PowAdd(b, m - 1, n);
      assert Pow(b, m + n) == b * Pow(b, m - 1 + n);
    }
  }

  lemma {:induction false} PowOfProduct(a: nat, b: nat, n: nat)
    ensures Pow(a * b, n) == Pow(a, n) * Pow(b, n)
  {
    if n > 0 {
      PowOfProduct(a, b, n - 1);
      var x, y := Pow(a, n - 1), Pow(b, n - 1);
      calc {
        Pow(a * b, n);
        (a * b) * (x * y);
        { MulSwap(a, b, x, y); }
        (a * x) * (b * y);
        Pow(a, n) * Pow(b, n);
      }
    }
  }

  lemma {:induction false} PowBaseLe(a: nat, b: nat, n: nat)
    requires a <= b
    ensures Pow(a, n) <= Pow(b, n)
  {
    if n > 0 {
      PowBaseLe(a, b, n - 1);
      MulLe(a, Pow(a, n - 1), b, Pow(b, n - 1));
    }
  }

  lemma PowExpLe(b: nat, m: nat, n: nat)
    requires b >= 1 && m <= n
    ensures Pow(b, m) <= Pow(b, n)
  {
    PowAdd(b, m, n - m);
    PowPositive(b, n - m);
    PowPositive(b, m);
    MulLe(Pow(b, m), 1, Pow(b, m), Pow(b, n - m));
  }

  lemma MulSwap(a: int, b: int, x: int, y: int)
    ensures (a * b) * (x * y) == (a * x) * (b * y)
  {
  }

  lemma MulLe(a: nat, x: nat, b: nat, y: nat)
    requires a <= b && x <= y
    ensures a * x <= b * y
  {
  }

  /** The overflow threshold lies between 2^1023 and 2^1024. */
  lemma FloatOverflowBounds()
    ensures Pow(2, 1023) <= FloatOverflow() < Pow(2, 1024)
  {
    var p, q := Pow(2, 970), Pow(2, 53);
    PowPositive(2, 970);
    PowExpLe(2, 1, 53);
    PowAdd(2, 970, 53);
    PowAdd(2, 970, 54);
    PowAdd(2, 53, 1);
    assert Pow(2, 54) == q * 2;
    HalfwayBelow(p, q);
  }

  lemma HalfwayBelow(p: int, q: int)
    requires p >= 1 && q >= 2
    ensures p * q <= p * (q * 2) - p < p * (q * 2)
  {
    assert p * (q * 2) == p * q + p * q;
    MulLe(p, 1, p, q);
  }

  /**
   * A string of decimal digits is accepted by `strconv.ParseFloat`
   * exactly when its value is below the overflow threshold.
   */
  lemma DigitsParseAsFloat(d: string)
    requires |d| >= 1 && forall k :: 0 <= k < |d| ==> IsDigit(d[k])
    ensures ParsesAsFloat(d) <==> DigitsValue(d, 10) < FloatOverflow()
  {
    DigitsAreNoWord(d);
    DigitsAreDecimal(d);
    var m := DigitsValue(MantissaDigits(d), 10);
    assert Overflows(d) <==> m * Pow(10, 0) >= FloatOverflow();
    assert m * Pow(10, 0) == DigitsValue(d, 10);
  }

  lemma DigitsAreNoWord(d: string)
    requires |d| >= 1 && IsDigit(d[0])
    ensures Lower(d) != "inf" && Lower(d) != "infinity" && Lower(d) != "nan"
  {
    assert Lower(d)[0] == d[0];
  }

  lemma DigitsAreDecimal(d: string)
    requires |d| >= 1 && forall k :: 0 <= k < |d| ==> IsDigit(d[k])
    ensures DecimalFloat(d) && MantissaDigits(d) == d && FractionLength(d) == 0 && ExponentValue(d) == 0
  {
    assert DigitRun(d, 0) == |d|;
    assert MantissaEnd(d) == |d|;
    assert d[..|d|] == d;
  }

  /** `1e400` is out of range: ten to the 400th exceeds 2^1024. */
  lemma HugeExponentOverflows()
    ensures !ParsesAsFloat("1e400")
  {
    var s := "1e400";
    assert DigitRun(s, 1) == 1;
    assert DigitRun(s, 0) == 1;
    assert DigitRun(s, 2) == 5 by {
      assert DigitRun(s, 5) == 5;
      assert DigitRun(s, 4) == 5;
      assert DigitRun(s, 3) == 5;
    }
    assert DecimalFloat(s);
    assert MantissaDigits(s) == "1";
    assert s[2..] == "400";
    assert DigitsValue("400", 10) == 400 by {
      assert "400"[..2] == "40" && "40"[..1] == "4" && "4"[..0] == "";
    }
    assert ExponentValue(s) == 400;
    assert DigitsValue(MantissaDigits(s), 10) == 1 by {
      assert "1"[..0] == "";
    }
    assert Overflows(s) <==> 1 * Pow(10, 400) >= FloatOverflow();
    TenToThe400();
    PowExpLe(2, 1024, 1200);
    FloatOverflowBounds();
  }

  /** 10^400 = 2^400 * 5^400 >= 2^400 * 4^400 = 2^1200. */
  lemma TenToThe400()
    ensures Pow(2, 1200) <= Pow(10, 400)
  {
    var two, four, five := Pow(2, 400), Pow(4, 400), Pow(5, 400);
    PowOfProduct(2, 5, 400);
    assert Pow(10, 400) == two * five;
    PowBaseLe(4, 5, 400);
    PowOfProduct(2, 2, 400);
    assert four == two * two;
    PowAdd(2, 400, 400);
    PowAdd(2, 400, 800);
    assert Pow(2, 1200) == two * four;
    MulLe(two, four, two, five);
  }

  /** `1e-400` rounds to zero, which is not an error. */
  lemma TinyExponentParses()
    ensures ParsesAsFloat("1e-400")
  {
    var s := "1e-400";
    assert DigitRun(s, 1) == 1;
    assert DigitRun(s, 0) == 1;
    assert DigitRun(s, 3) == 6 by {
      assert DigitRun(s, 6) == 6;
      assert DigitRun(s, 5) == 6;
      assert DigitRun(s, 4) == 6;
    }
    assert DecimalFloat(s);
    assert MantissaDigits(s) == "1";
    assert s[3..] == "400";
    assert DigitsValue("400", 10) == 400 by {
      assert "400"[..2] == "40" && "40"[..1] == "4" && "4"[..0] == "";
    }
    assert ExponentValue(s) == -400;
    assert DigitsValue(MantissaDigits(s), 10) == 1 by {
      assert "1"[..0] == "";
    }
    FloatOverflowBounds();
    PowPositive(2, 1023);
    PowPositive(10, 400);
    MulLe(2, 1, FloatOverflow(), Pow(10, 400));
    assert !Overflows(s);
  }

  // ---------------------------------------------------------------------
  // int64 arithmetic

  /** Go's wrap-around of an int64 result. */
  function Wrap64(x: int): (r: int)
    ensures IsInt64(r)
    ensures (r - x) % TwoTo64 == 0
    ensures IsInt64(x) ==> r == x
  {
    (x + TwoTo63) % TwoTo64 - TwoTo63
  }

  /** Two int64 values that agree modulo 2^64 are equal. */
  lemma WrapUnique(a: int, b: int)
    requires IsInt64(a) && IsInt64(b) && (a - b) % TwoTo64 == 0
    ensures a == b
  {
    var d := a - b;
    assert d == TwoTo64 * (d / TwoTo64);
  }

  /** Wrapping an intermediate sum does not change the wrapped total. */
  lemma WrapThenAdd(x: int, y: int)
    ensures Wrap64(Wrap64(x) + y) == Wrap64(x + y)
  {
    var w := Wrap64(x);
    var a, b := Wrap64(w + y), Wrap64(x + y);
    var k1, k2, k3 := (a - (w + y)) / TwoTo64, (w - x) / TwoTo64, (b - (x + y)) / TwoTo64;
    assert a - (w + y) == TwoTo64 * k1;
    assert w - x == TwoTo64 * k2;
    assert b - (x + y) == TwoTo64 * k3;
    assert a - b == TwoTo64 * (k1 + k2 - k3);
    WrapUnique(a, b);
  }

  /** Wrapping an intermediate product does not change the wrapped total. */
  lemma WrapThenMul(x: int, y: int)
    ensures Wrap64(Wrap64(x) * y) == Wrap64(x * y)
  {
    var w := Wrap64(x);
    var k := (w - x) / TwoTo64;
    assert w == x + TwoTo64 * k;
    Distribute(x, TwoTo64 * k, y);
    var t := k * y;
    assert TwoTo64 * k * y == TwoTo64 * t;
    WrapPeriodic(x * y, t);
  }

  lemma Distribute(x: int, d: int, y: int)
    ensures (x + d) * y == x * y + d * y
  {
  }

  /** Adding a multiple of 2^64 does not change the wrapped value. */
  lemma WrapPeriodic(z: int, t: int)
    ensures Wrap64(z + TwoTo64 * t) == Wrap64(z)
  {
    var a, b := Wrap64(z + TwoTo64 * t), Wrap64(z);
    var k1, k3 := (a - (z + TwoTo64 * t)) / TwoTo64, (b - z) / TwoTo64;
    assert a - (z + TwoTo64 * t) == TwoTo64 * k1;
    assert b - z == TwoTo64 * k3;
    assert a - b == TwoTo64 * (k1 + t - k3);
    WrapUnique(a, b);
  }

  /** Go's integer division, which truncates toward zero. */
  function Quot(a: int, b: int): (q: int)
    requires b != 0
    ensures var rem := a - q * b;
            (rem == 0 || (rem > 0) == (a > 0)) &&
            (if b > 0 then -b < rem < b else b < rem < -b)
  {
    var abs := if a < 0 then -a else a;
    var absb := if b < 0 then -b else b;
    var q := abs / absb;
    if (a < 0) == (b < 0) then q else -q
  }

  // ---------------------------------------------------------------------
  // string(r) for a rune r, and the inverse decoding

  /** A UTF-8 continuation byte carrying six bits. */
  function Cont(n: int): char
    requires 0 <= n
  {
    (0x80 + n % 64) as char
  }

  /**
   * `string(r)`: the UTF-8 encoding of the rune `r`, one to four bytes.
   * Converting a byte with `string(b)` goes through the rune of the same
   * number, so a byte of 0x80 or more becomes two bytes.
   */
  function EncodeRune(c: char): (r: string)
    ensures 1 <= |r| <= 4
    ensures |r| == 1 <==> c < '\U{80}'
    ensures c < '\U{80}' ==> r == [c]
  {
    var n := c as int;
    if n < 0x80 then [c]
    else if n < 0x800 then [(0xC0 + n / 64) as char, Cont(n)]
    else if n < 0x10000 then [(0xE0 + n / 4096) as char, Cont(n / 64), Cont(n)]
    else [(0xF0 + n / 0x40000) as char, Cont(n / 4096), Cont(n / 64), Cont(n)]
  }

  predicate IsCont(c: char)
  {
    '\U{80}' <= c <= '\U{BF}'
  }

  /** The six bits a continuation byte carries. */
  function Bits(c: char): int
  {
    c as int % 64
  }

  /** A code point that is a rune: not a surrogate, at most U+10FFFF. */
  predicate IsScalar(v: int)
  {
    0 <= v < 0xD800 || 0xE000 <= v < 0x11_0000
  }

  /**
   * The rune whose shortest UTF-8 encoding is exactly `t`, if there is
   * one (overlong forms and surrogates are not encodings).
   */
  function DecodeRune(t: string): Option<char>
  {
    if |t| == 1 && t[0] < '\U{80}' then Some(t[0])
    else if |t| == 2 && '\U{C0}' <= t[0] < '\U{E0}' && IsCont(t[1]) then
      var v := (t[0] as int - 0xC0) * 64 + Bits(t[1]);
      if 0x80 <= v then Some(v as char) else None
    else if |t| == 3 && '\U{E0}' <= t[0] < '\U{F0}' && IsCont(t[1]) && IsCont(t[2]) then
      var v := ((t[0] as int - 0xE0) * 64 + Bits(t[1])) * 64 + Bits(t[2]);
      if 0x800 <= v && IsScalar(v) then Some(v as char) else None
    else if |t| == 4 && '\U{F0}' <= t[0] < '\U{F8}' && IsCont(t[1]) && IsCont(t[2]) && IsCont(t[3]) then
      var v := (((t[0] as int - 0xF0) * 64 + Bits(t[1])) * 64 + Bits(t[2])) * 64 + Bits(t[3]);
      if 0x1_0000 <= v && IsScalar(v) then Some(v as char) else None
    else None
  }

  lemma DivMod64(v: int, q: int, r: int)
    requires q >= 0 && 0 <= r < 64 && v == q * 64 + r
    ensures v / 64 == q && v % 64 == r
  {
  }

  lemma ContBits(n: int)
    requires n >= 0
    ensures IsCont(Cont(n)) && Bits(Cont(n)) == n % 64
  {
    DivMod64(0x80 + n % 64, 2, n % 64);
  }

  lemma ContOfBits(c: char)
    requires IsCont(c)
    ensures Cont(Bits(c)) == c
  {
    DivMod64(c as int, 2, c as int - 0x80);
    DivMod64(c as int - 0x80, 0, c as int - 0x80);
  }

  /** Decoding the encoding of a rune gives the rune back. */
  lemma DecodeEncode(c: char)
    ensures DecodeRune(EncodeRune(c)) == Some(c)
  {
    var n := c as int;
    var t := EncodeRune(c);
    if n < 0x80 {
    } else if n < 0x800 {
      ContBits(n);
      DivMod64(n, n / 64, n % 64);
      assert t[0] as int - 0xC0 == n / 64;
    } else if n < 0x10000 {
      var n1 := n / 64;
      ContBits(n);
      ContBits(n1);
      DivMod64(n, n1, n % 64);
      DivMod64(n1, n1 / 64, n1 % 64);
      assert n / 4096 == n1 / 64;
      assert t[0] as int - 0xE0 == n1 / 64;
    } else {
      var n1 := n / 64;
      var n2 := n1 / 64;
      ContBits(n);
      ContBits(n1);
      ContBits(n2);
      DivMod64(n, n1, n % 64);
      DivMod64(n1, n2, n1 % 64);
      DivMod64(n2, n2 / 64, n2 % 64);
      assert n / 4096 == n2;
      assert n / 0x40000 == n2 / 64;
      assert t[0] as int - 0xF0 == n2 / 64;
    }
  }

  /** Only the encoding of a rune decodes to it. */
  lemma EncodeDecode(t: string, c: char)
    requires DecodeRune(t) == Some(c)
    ensures EncodeRune(c) == t
  {
    if |t| == 2 {
      EncodeDecode2(t, c);
    } else if |t| == 3 {
      EncodeDecode3(t, c);
    } else if |t| == 4 {
      EncodeDecode4(t, c);
    }
  }

  lemma EncodeDecode2(t: string, c: char)
    requires |t| == 2 && DecodeRune(t) == Some(c)
    ensures EncodeRune(c) == t
  {
    var v := c as int;
    var q := t[0] as int - 0xC0;
    assert v == q * 64 + Bits(t[1]);
    assert 0x80 <= v < 0x800;
    DivMod64(v, q, Bits(t[1]));
    ContOfBits(t[1]);
    var e := EncodeRune(c);
    assert e[0] == t[0] && e[1] == t[1];
  }

  lemma EncodeDecode3(t: string, c: char)
    requires |t| == 3 && DecodeRune(t) == Some(c)
    ensures EncodeRune(c) == t
  {
    var v := c as int;
    var q := t[0] as int - 0xE0;
    var v1 := q * 64 + Bits(t[1]);
    assert v == v1 * 64 + Bits(t[2]);
    assert 0x800 <= v < 0x10000;
    DivMod64(v, v1, Bits(t[2]));
    DivMod64(v1, q, Bits(t[1]));
    ContOfBits(t[1]);
    ContOfBits(t[2]);
    assert v / 4096 == q;
    var e := EncodeRune(c);
    assert e[0] == t[0] && e[1] == t[1] && e[2] == t[2];
  }

  lemma EncodeDecode4(t: string, c: char)
    requires |t| == 4 && DecodeRune(t) == Some(c)
    ensures EncodeRune(c) == t
  {
    var v := c as int;
    var q := t[0] as int - 0xF0;
    var v1 := q * 64 + Bits(t[1]);
    var v2 := v1 * 64 + Bits(t[2]);
    assert v == v2 * 64 + Bits(t[3]);
    assert 0x1_0000 <= v;
    DivMod64(v, v2, Bits(t[3]));
    DivMod64(v2, v1, Bits(t[2]));
    DivMod64(v1, q, Bits(t[1]));
    ContOfBits(t[1]);
    ContOfBits(t[2]);
    ContOfBits(t[3]);
    assert v / 4096 == v1;
    assert v / 0x40000 == q;
    var e := EncodeRune(c);
    assert e[0] == t[0] && e[1] == t[1] && e[2] == t[2] && e[3] == t[3];
  }

  // ---------------------------------------------------------------------
  // strconv.Quote

  const LowerHex := "0123456789abcdef"

  /**
   * How `strconv.Quote` writes one byte: `"` and `\` get a backslash,
   * printable ASCII is kept, the seven control characters with a letter
   * escape use it, and the other control characters become `\xHH`.
   * Bytes from 0x80 up are kept.
   */
  function EscapeByte(c: char): (r: string)
  {
    if c == '"' || c == '\\' then ['\\', c]
    else if ' ' <= c <= '~' || c >= '\U{80}' then [c]
    else if c == '\U{07}' then "\\a"
    else if c == '\U{08}' then "\\b"
    else if c == '\U{0C}' then "\\f"
    else if c == '\n' then "\\n"
    else if c == '\r' then "\\r"
    else if c == '\t' then "\\t"
    else if c == '\U{0B}' then "\\v"
    else "\\x" + [LowerHex[c as int / 16], LowerHex[c as int % 16]]
  }

  function Escaped(s: string): string
  {
    if s == [] then [] else EscapeByte(s[0]) + Escaped(s[1..])
  }

  lemma {:induction false} EscapedLength(s: string)
    ensures |Escaped(s)| >= |s|
  {
    if s != [] {
      EscapedLength(s[1..]);
    }
  }

  /** `strconv.Quote(s)`, the text `%#v` prints for a string. */
  function Quote(s: string): (r: string)
    ensures |r| >= 2 && r[0] == '"' && r[|r| - 1] == '"'
  {
    "\"" + Escaped(s) + "\""
  }

  /** The byte a one-letter escape `\x` stands for. */
  function LetterEscape(c: char): Option<char>
  {
    if c == '"' || c == '\\' then Some(c)
    else if c == 'a' then Some('\U{07}')
    else if c == 'b' then Some('\U{08}')
    else if c == 'f' then Some('\U{0C}')
    else if c == 'n' then Some('\n')
    else if c == 'r' then Some('\r')
    else if c == 't' then Some('\t')
    else if c == 'v' then Some('\U{0B}')
    else None
  }

  /** The bytes a Go string literal body stands for, reading its escapes; `None` for a bad escape. */
  function Unescape(t: string): Option<string>
    decreases |t|
  {
    if t == [] then Some([])
    else if t[0] != '\\' then
      (match Unescape(t[1..]) case Some(u) => Some([t[0]] + u) case None => None)
    else if |t| >= 2 && LetterEscape(t[1]).Some? then
      (match Unescape(t[2..]) case Some(u) => Some([LetterEscape(t[1]).value] + u) case None => None)
    else if |t| >= 4 && t[1] == 'x' && DigitValue(t[2]) < 16 && DigitValue(t[3]) < 16 then
      (match Unescape(t[4..])
       case Some(u) => Some([(DigitValue(t[2]) * 16 + DigitValue(t[3])) as char] + u)
       case None => None)
    else None
  }

  /** Reading the escapes of one written byte gives the byte back. */
  lemma UnescapeByte(c: char, rest: string)
    ensures Unescape(EscapeByte(c) + rest) ==
            (match Unescape(rest) case Some(u) => Some([c] + u) case None => None)
  {
    var t := EscapeByte(c) + rest;
    if c == '"' || c == '\\' {
      assert t[0] == '\\' && t[1] == c && t[2..] == rest;
    } else if ' ' <= c <= '~' || c >= '\U{80}' {
      assert t[0] == c && t[1..] == rest;
    } else if LetterEscape(EscapeByte(c)[1]).Some? {
      assert t[0] == '\\' && t[2..] == rest;
      assert LetterEscape(t[1]) == Some(c);
    } else {
      UnescapeHex(c, rest);
    }
  }

  lemma UnescapeHex(c: char, rest: string)
    requires c < ' ' || c == '\U{7F}'
    requires EscapeByte(c) == "\\x" + [LowerHex[c as int / 16], LowerHex[c as int % 16]]
    ensures Unescape(EscapeByte(c) + rest) ==
            (match Unescape(rest) case Some(u) => Some([c] + u) case None => None)
  {
    var t := EscapeByte(c) + rest;
    var n := c as int;
    assert t[0] == '\\' && t[1] == 'x' && t[4..] == rest;
    assert LetterEscape('x').None?;
    assert DigitValue(t[2]) == n / 16 && DigitValue(t[3]) == n % 16;
    assert (n / 16) * 16 + n % 16 == n;
  }

  /** `Unescape` undoes `Escaped`. */
  lemma {:induction false} UnescapeEscaped(s: string)
    ensures Unescape(Escaped(s)) == Some(s)
  {
    if s != [] {
      UnescapeEscaped(s[1..]);
      UnescapeByte(s[0], Escaped(s[1..]));
      assert [s[0]] + s[1..] == s;
    }
  }

  /** `strconv.Quote` puts a backslash before a double quote inside the string. */
  lemma QuoteEscapesQuote()
    ensures Quote("A\"B") == "\"A\\\"B\""
  {
    var n := "A\"B";
    assert n[1..] == "\"B" && n[1..][1..] == "B" && "B"[1..] == "";
    assert Escaped("B") == "B";
    assert Escaped("\"B") == "\\\"" + "B";
    assert Escaped(n) == "A" + "\\\"" + "B";
  }

  /** A string without quotes, backslashes or control characters is quoted as it is. */
  lemma {:induction false} EscapedPlain(s: string)
    requires forall k :: 0 <= k < |s| ==> s[k] != '"' && s[k] != '\\' && (' ' <= s[k] <= '~' || s[k] >= '\U{80}')
    ensures Escaped(s) == s
  {
    if s != [] {
      EscapedPlain(s[1..]);
      assert [s[0]] + s[1..] == s;
    }
  }
}
