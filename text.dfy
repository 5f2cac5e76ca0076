/** Character and string helpers used by the CSV export: decimal rendering of
    integers, and joining/splitting on a separator character. */
module Text {

  predicate IsDigit(c: char) {
    '0' <= c <= '9'
  }

  function DigitValue(c: char): (v: nat)
    requires IsDigit(c)
    ensures v < 10
  {
    c as int - '0' as int
  }

  function DigitChar(d: nat): (c: char)
    requires d < 10
    ensures IsDigit(c) && DigitValue(c) == d
  {
    ('0' as int + d) as char
  }

  predicate AllDigits(s: string) {
    forall k :: 0 <= k < |s| ==> IsDigit(s[k])
  }

  /** Decimal digits of n, most significant first, without leading zeros. */
  function NatToString(n: nat): (s: string)
    ensures |s| >= 1 && AllDigits(s)
    decreases n
  {
    if n < 10 then [DigitChar(n)] else NatToString(n / 10) + [DigitChar(n % 10)]
  }

  /** Decimal rendering of an integer, with a leading '-' when negative. */
  function IntToString(i: int): (s: string)
    ensures IsIntText(s)
  {
    if i < 0 then "-" + NatToString(-i) else NatToString(i)
  }

  lemma {:induction false} NatToStringLeadingDigit(n: nat)
    ensures NatToString(n)[0] != '0' || n == 0
    decreases n
  {
    if n >= 10 {
      NatToStringLeadingDigit(n / 10);
      assert NatToString(n)[0] == NatToString(n / 10)[0];
    } else {
      assert DigitValue(NatToString(n)[0]) == n;
    }
  }

  /** The rendering is canonical, as JavaScript's: a '-' exactly for negative
      numbers, no leading zero, and zero written as "0". */
  lemma IntToStringCanonical(i: int)
    ensures (IntToString(i)[0] == '-') <==> i < 0
    ensures i < 0 ==> IntToString(i)[1] != '0'
    ensures i > 0 ==> IntToString(i)[0] != '0'
    ensures i == 0 ==> IntToString(i) == "0"
  {
    if i < 0 {
      NatToStringLeadingDigit(-i);
      assert IntToString(i)[1] == NatToString(-i)[0];
    } else {
      NatToStringLeadingDigit(i);
      assert IsDigit(NatToString(i)[0]);
    }
  }

  /** The texts IntToString produces: digits, optionally after one '-'. */
  predicate IsIntText(s: string) {
    (|s| >= 1 && AllDigits(s)) || (|s| >= 2 && s[0] == '-' && AllDigits(s[1..]))
  }

  function ParseNat(s: string): nat
    requires AllDigits(s)
  {
    if |s| == 0 then 0 else 10 * ParseNat(s[..|s| - 1]) + DigitValue(s[|s| - 1])
  }

  function ParseInt(s: string): int
    requires IsIntText(s)
  {
    if s[0] == '-' then -(ParseNat(s[1..]) as int) else ParseNat(s) as int
  }

  lemma {:induction false} ParseNatToString(n: nat)
    ensures ParseNat(NatToString(n)) == n
    decreases n
  {
    if n >= 10 {
      var s := NatToString(n);
      assert s[..|s| - 1] == NatToString(n / 10);
      ParseNatToString(n / 10);
    }
  }

  /** The rendering loses nothing: the integer can be read back from it. */
  lemma ParseIntToString(i: int)
    ensures ParseInt(IntToString(i)) == i
  {
    var s := IntToString(i);
    if i < 0 {
      assert s[1..] == NatToString(-i);
      ParseNatToString(-i);
    } else {
      ParseNatToString(i);
    }
  }

  /** parts[0] + sep + parts[1] + sep + ... ; the empty list joins to "". */
  function Join(parts: seq<string>, sep: char): string {
    if |parts| == 0 then ""
    else if |parts| == 1 then parts[0]
    else parts[0] + [sep] + Join(parts[1..], sep)
  }

  /** The pieces of s between occurrences of sep; always at least one piece. */
  function Split(s: string, sep: char): (pieces: seq<string>)
    ensures |pieces| >= 1
  {
    if |s| == 0 then [""]
    else if s[0] == sep then [""] + Split(s[1..], sep)
    else
      var rest := Split(s[1..], sep);
      [[s[0]] + rest[0]] + rest[1..]
  }

  lemma {:induction false} JoinAppend(a: seq<string>, b: seq<string>, sep: char)
    requires |a| >= 1 && |b| >= 1
    ensures Join(a + b, sep) == Join(a, sep) + [sep] + Join(b, sep)
  {
    if |a| > 1 {
      assert (a + b)[1..] == a[1..] + b;
      JoinAppend(a[1..], b, sep);
    } else {
      assert (a + b)[1..] == b;
    }
  }

  /** A part that itself contains the separator joins like two parts. */
  lemma JoinSplicedPart(a: seq<string>, p: string, q: string, b: seq<string>, sep: char)
    requires |a| >= 1 && |b| >= 1
    ensures Join(a + [p + [sep] + q] + b, sep) == Join(a + [p, q] + b, sep)
  {
    var mid := p + [sep] + q;
    assert a + [mid] + b == a + ([mid] + b);
    assert a + [p, q] + b == a + ([p, q] + b);
    JoinAppend(a, [mid] + b, sep);
    JoinAppend([mid], b, sep);
    JoinAppend(a, [p, q] + b, sep);
    JoinAppend([p, q], b, sep);
    assert Join([p, q], sep) == mid;
  }

  lemma {:induction false} SplitNoSeparator(p: string, sep: char)
    requires sep !in p
    ensures Split(p, sep) == [p]
  {
    if |p| > 0 {
      SplitNoSeparator(p[1..], sep);
      assert [p[0]] + p[1..] == p;
    }
  }

  lemma {:induction false} SplitAfterPiece(p: string, t: string, sep: char)
    requires sep !in p
    ensures Split(p + [sep] + t, sep) == [p] + Split(t, sep)
  {
    var s := p + [sep] + t;
    if |p| == 0 {
      assert s[1..] == t;
    } else {
      assert s[1..] == p[1..] + [sep] + t;
      SplitAfterPiece(p[1..], t, sep);
      assert [p[0]] + p[1..] == p;
    }
  }

  /** Splitting undoes joining when no part contains the separator. */
  lemma {:induction false} SplitJoin(parts: seq<string>, sep: char)
    requires |parts| >= 1
    requires forall k :: 0 <= k < |parts| ==> sep !in parts[k]
    ensures Split(Join(parts, sep), sep) == parts
  {
    if |parts| == 1 {
      SplitNoSeparator(parts[0], sep);
    } else {
      SplitAfterPiece(parts[0], Join(parts[1..], sep), sep);
      SplitJoin(parts[1..], sep);
      assert [parts[0]] + parts[1..] == parts;
    }
  }
}
