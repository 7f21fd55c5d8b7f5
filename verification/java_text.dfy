/** The pieces of java.lang the services lean on when they build SQL text:
    blank checks, joining, case-insensitive comparison, decimal formatting and
    parsing of longs, and 32-bit int arithmetic. */
module JavaText {
  import opened Outcomes

  // ---------------------------------------------------------------- blanks

  /** `Character.isWhitespace`: the Unicode space, line and paragraph
      separators other than the three no-break spaces, plus the ASCII
      controls TAB, LF, VT, FF, CR and FS..US. */
  predicate IsWhitespace(c: char) {
    || ('\t' <= c <= '\r')
    || ('\U{1C}' <= c <= '\U{1F}')
    || c == ' '
    || c == '\U{1680}'
    || ('\U{2000}' <= c <= '\U{2006}')
    || ('\U{2008}' <= c <= '\U{200A}')
    || c == '\U{2028}' || c == '\U{2029}'
    || c == '\U{205F}' || c == '\U{3000}'
  }

  /** `String.isBlank`: empty or whitespace only. */
  predicate IsBlank(s: string) {
    forall i :: 0 <= i < |s| ==> IsWhitespace(s[i])
  }

  /** The guard `x != null && !x.isBlank()` that every validator repeats. */
  predicate HasText(x: Option<string>) {
    x.Some? && !IsBlank(x.value)
  }

  /** How string concatenation and `%s` print a possibly-null String. */
  function Show(x: Option<string>): (r: string)
    ensures x.Some? ==> r == x.value
    ensures x.None? ==> r == "null"
  {
    if x.Some? then x.value else "null"
  }

  /** `String.trim`: drops leading and trailing characters up to U+0020. */
  function Trim(s: string): string
  {
    TrimEnd(TrimStart(s))
  }

  function TrimStart(s: string): (r: string)
    ensures |r| > 0 ==> r[0] > ' '
  {
    if |s| > 0 && s[0] <= ' ' then TrimStart(s[1..]) else s
  }

  function TrimEnd(s: string): (r: string)
    ensures |s| > 0 && s[0] > ' ' ==> |r| > 0
  {
    if |s| > 0 && s[|s| - 1] <= ' ' then TrimEnd(s[..|s| - 1]) else s
  }

  /** `trim()` leaves something exactly when some character is above U+0020. */
  lemma {:induction false} TrimNonEmpty(s: string)
    ensures |Trim(s)| > 0 <==> exists i :: 0 <= i < |s| && s[i] > ' '
  {
    TrimStartNonEmpty(s);
  }

  lemma {:induction false} TrimStartNonEmpty(s: string)
    ensures |TrimStart(s)| > 0 <==> exists i :: 0 <= i < |s| && s[i] > ' '
  {
    if |s| > 0 && s[0] <= ' ' {
      TrimStartNonEmpty(s[1..]);
      if exists i :: 0 <= i < |s| && s[i] > ' ' {
        var i :| 0 <= i < |s| && s[i] > ' ';
        assert s[1..][i - 1] == s[i];
      }
    } else if |s| > 0 {
      assert s[0] > ' ';
    }
  }

  // ---------------------------------------------------------------- joining

  /** `String.join(sep, parts)` and `Collectors.joining(sep)`. */
  function Join(parts: seq<string>, sep: string): string
  {
    if |parts| == 0 then ""
    else if |parts| == 1 then parts[0]
    else parts[0] + sep + Join(parts[1..], sep)
  }

  /** Joining two non-empty lists puts exactly one separator between them. */
  lemma {:induction false} JoinConcat(a: seq<string>, b: seq<string>, sep: string)
    requires |a| > 0 && |b| > 0
    ensures Join(a + b, sep) == Join(a, sep) + sep + Join(b, sep)
  {
    if |a| == 1 {
      assert a + b == [a[0]] + b;
      assert (a + b)[1..] == b;
    } else {
      assert (a + b)[1..] == a[1..] + b;
      JoinConcat(a[1..], b, sep);
    }
  }

  /** Pre-joining a non-empty prefix and joining again with the same separator
      is the same as joining everything at once. */
  lemma JoinFlatten(a: seq<string>, b: seq<string>, sep: string)
    requires |a| > 0
    ensures Join([Join(a, sep)] + b, sep) == Join(a + b, sep)
  {
    if |b| > 0 {
      JoinConcat([Join(a, sep)], b, sep);
      JoinConcat(a, b, sep);
    } else {
      assert a + b == a;
    }
  }

  // ---------------------------------------------------------------- counting

  /** Occurrences of `c` in `s`. */
  function CountChar(s: string, c: char): (n: nat)
    ensures n <= |s|
    ensures n == 0 <==> c !in s
  {
    if |s| == 0 then 0
    else (if s[0] == c then 1 else 0) + CountChar(s[1..], c)
  }

  lemma {:induction false} CountConcat(s: string, t: string, c: char)
    ensures CountChar(s + t, c) == CountChar(s, c) + CountChar(t, c)
  {
    if |s| > 0 {
      assert (s + t)[1..] == s[1..] + t;
      CountConcat(s[1..], t, c);
    } else {
      assert s + t == t;
    }
  }

  /** Total occurrences of `c` over a list of strings. */
  function SumCounts(parts: seq<string>, c: char): nat
  {
    if |parts| == 0 then 0 else CountChar(parts[0], c) + SumCounts(parts[1..], c)
  }

  /** A separator free of `c` contributes nothing to the count of `c`. */
  lemma {:induction false} CountJoin(parts: seq<string>, sep: string, c: char)
    requires c !in sep
    ensures CountChar(Join(parts, sep), c) == SumCounts(parts, c)
  {
    if |parts| > 1 {
      CountJoin(parts[1..], sep, c);
      CountConcat(parts[0], sep, c);
      CountConcat(parts[0] + sep, Join(parts[1..], sep), c);
    }
  }

  // ---------------------------------------------------------------- case

  /** `Character.toUpperCase` restricted to the characters that matter for the
      comparisons in this model: the ASCII letters, and LATIN SMALL LETTER LONG S,
      the one non-ASCII character whose upper case is one of the ASCII letters
      the services compare against. Every other character is left as is. */
  function FoldUpper(c: char): char
  {
    if 'a' <= c <= 'z' then (c as int - 32) as char
    else if c == '\U{17F}' then 'S'
    else c
  }

  /** `String.equalsIgnoreCase`. */
  predicate EqualsIgnoreCase(a: string, b: string) {
    |a| == |b| && forall i :: 0 <= i < |a| ==> a[i] == b[i] || FoldUpper(a[i]) == FoldUpper(b[i])
  }

  /** `String.toUpperCase`. */
  function ToUpper(s: string): (r: string)
    ensures |r| == |s|
    ensures forall i :: 0 <= i < |s| ==> r[i] == FoldUpper(s[i])
  {
    seq(|s|, i requires 0 <= i < |s| => FoldUpper(s[i]))
  }

  /** A string already in upper case. */
  predicate IsUpper(s: string) {
    forall i :: 0 <= i < |s| ==> FoldUpper(s[i]) == s[i]
  }

  /** Upper-casing anything that equals an upper-case word ignoring case yields
      exactly that word. */
  lemma UpperOfCaseInsensitiveMatch(s: string, word: string)
    requires IsUpper(word) && EqualsIgnoreCase(s, word)
    ensures ToUpper(s) == word
  {
    forall i | 0 <= i < |s|
      ensures ToUpper(s)[i] == word[i]
    {
      assert s[i] == word[i] || FoldUpper(s[i]) == FoldUpper(word[i]);
    }
  }

  // ---------------------------------------------------------------- decimals

  predicate IsDigit(c: char) { '0' <= c <= '9' }

  predicate AllDigits(s: string) {
    forall i :: 0 <= i < |s| ==> IsDigit(s[i])
  }

  function DigitChar(d: nat): (c: char)
    requires d < 10
    ensures IsDigit(c)
  {
    ('0' as int + d) as char
  }

  /** The value of a string of decimal digits. */
  function DigitsValue(s: string): nat
    requires AllDigits(s)
  {
    if |s| == 0 then 0
    else DigitsValue(s[..|s| - 1]) * 10 + (s[|s| - 1] as int - '0' as int)
  }

  /** The shortest decimal representation of a natural number. */
  function NatToDigits(n: nat): (s: string)
    ensures |s| > 0 && AllDigits(s)
    decreases n
  {
    if n < 10 then [DigitChar(n)] else NatToDigits(n / 10) + [DigitChar(n % 10)]
  }

  /** Decimal formatting reads back as the number it formats. */
  lemma {:induction false} DigitsRoundTrip(n: nat)
    ensures DigitsValue(NatToDigits(n)) == n
    decreases n
  {
    if n >= 10 {
      var s := NatToDigits(n);
      assert s[..|s| - 1] == NatToDigits(n / 10);
      DigitsRoundTrip(n / 10);
    }
  }

  const MinLong: int := -0x8000_0000_0000_0000
  const MaxLong: int := 0x7FFF_FFFF_FFFF_FFFF
  const MinInt: int := -0x8000_0000
  const MaxInt: int := 0x7FFF_FFFF

  predicate IsLong(n: int) { MinLong <= n <= MaxLong }
  predicate IsInt(n: int) { MinInt <= n <= MaxInt }

  /** `Long.toString` / `%d`: a minus sign for negatives, then the digits. */
  function LongToString(n: int): (s: string)
    ensures |s| > 0 && '-' !in s[1..] && ':' !in s && '/' !in s
    ensures n >= 0 ==> '-' !in s
    ensures n < 0 ==> s[0] == '-'
  {
    var s := if n < 0 then "-" + NatToDigits(-n) else NatToDigits(n);
    assert forall i :: 0 <= i < |s| ==> IsDigit(s[i]) || (i == 0 && s[i] == '-');
    s
  }

  /** `Long.parseLong`: an optional `+` or `-`, at least one decimal digit and
      nothing else, with a value inside the 64-bit range; `None` stands for the
      NumberFormatException. */
  function ParseLong(s: string): (r: Option<int>)
    ensures r.Some? ==> IsLong(r.value)
    ensures r.Some? ==> |s| > 0 && (AllDigits(s) || ((s[0] == '-' || s[0] == '+') && AllDigits(s[1..])))
    ensures |s| > 0 && AllDigits(s) ==> r == (if IsLong(DigitsValue(s)) then Some(DigitsValue(s) as int) else None)
    ensures |s| > 1 && s[0] == '+' && AllDigits(s[1..]) ==>
              r == (if IsLong(DigitsValue(s[1..])) then Some(DigitsValue(s[1..]) as int) else None)
    ensures |s| > 1 && s[0] == '-' && AllDigits(s[1..]) ==>
              r == (if IsLong(-(DigitsValue(s[1..]) as int)) then Some(-(DigitsValue(s[1..]) as int)) else None)
  {
    if |s| == 0 then None
    else
      var negative := s[0] == '-';
      var body := if s[0] == '-' || s[0] == '+' then s[1..] else s;
      if |body| == 0 || !AllDigits(body) then None
      else
        var v: int := if negative then -(DigitsValue(body) as int) else DigitsValue(body);
        if IsLong(v) then Some(v) else None
  }

  /** A zero in front of the digits does not change their value. */
  lemma {:induction false} LeadingZeroValue(s: string)
    requires AllDigits(s)
    ensures AllDigits("0" + s) && DigitsValue("0" + s) == DigitsValue(s)
    decreases |s|
  {
    var z := "0" + s;
    assert forall i :: 0 <= i < |z| ==> IsDigit(z[i]);
    if |s| > 0 {
      assert z[..|z| - 1] == "0" + s[..|s| - 1];
      LeadingZeroValue(s[..|s| - 1]);
    }
  }

  /** `Long.parseLong` ignores leading zeros, after a sign as well. */
  lemma LeadingZeroIgnored(sign: string, digits: string)
    requires sign == "" || sign == "+" || sign == "-"
    requires |digits| > 0 && AllDigits(digits)
    ensures ParseLong(sign + "0" + digits) == ParseLong(sign + digits)
  {
    LeadingZeroValue(digits);
    var a := sign + "0" + digits;
    var b := sign + digits;
    if sign != "" {
      assert a[1..] == "0" + digits && b[1..] == digits;
    } else {
      assert a == "0" + digits && b == digits;
    }
  }

  /** Sample inputs: a plus sign, leading zeros and a negative zero are
      accepted; a lone sign is not. */
  lemma ParseLongSamples()
    ensures ParseLong("+5") == Some(5)
    ensures ParseLong("007") == Some(7)
    ensures ParseLong("-0") == Some(0)
    ensures ParseLong("+") == None
  {
    assert "5"[..0] == "" && "0"[..0] == "";
    assert DigitsValue("5") == 5 && DigitsValue("0") == 0;
    assert "+5"[1..] == "5" && "-0"[1..] == "0";
    assert "007"[..2] == "00" && "00"[..1] == "0";
    assert DigitsValue("00") == 0;
    assert DigitsValue("007") == 7;
  }

  /** Every long formats to a string `Long.parseLong` reads back unchanged. */
  lemma LongRoundTrip(n: int)
    requires IsLong(n)
    ensures ParseLong(LongToString(n)) == Some(n)
  {
    var s := LongToString(n);
    if n < 0 {
      var d := NatToDigits(-n);
      DigitsRoundTrip(-n);
      assert s == "-" + d && s[1..] == d;
    } else {
      var d := NatToDigits(n);
      DigitsRoundTrip(n);
      assert s == d && IsDigit(s[0]);
    }
  }

  // ---------------------------------------------------------------- int arithmetic

  /** Java `int` arithmetic: the two's-complement value of `x` modulo 2^32. */
  function WrapInt(x: int): (r: int)
    ensures IsInt(r)
    ensures (x - r) % 0x1_0000_0000 == 0
    ensures IsInt(x) ==> r == x
  {
    var m := x % 0x1_0000_0000;
    if m > MaxInt then m - 0x1_0000_0000 else m
  }

  // ---------------------------------------------------------------- splitting

  /** Splits at the first occurrence of `c`, if any. */
  function SplitAt(s: string, c: char): (r: Option<(string, string)>)
    ensures r.None? <==> c !in s
    ensures r.Some? ==> s == r.value.0 + [c] + r.value.1 && c !in r.value.0
  {
    if |s| == 0 then None
    else if s[0] == c then Some(([], s[1..]))
    else match SplitAt(s[1..], c)
      case None => None
      case Some((before, after)) => Some(([s[0]] + before, after))
  }

  /** Splitting a text that was glued together at a fresh separator gives back its parts. */
  lemma {:induction false} SplitAtGlue(a: string, b: string, c: char)
    requires c !in a
    ensures SplitAt(a + [c] + b, c) == Some((a, b))
  {
    if |a| > 0 {
      assert (a + [c] + b)[1..] == a[1..] + [c] + b;
      SplitAtGlue(a[1..], b, c);
      assert [a[0]] + a[1..] == a;
    } else {
      assert a + [c] + b == [c] + b;
    }
  }
}
