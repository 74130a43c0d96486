/**
 * The few Go `strings` and `strconv` operations the metastore keys and the proxy's parameter
 * handling are built from: decimal formatting (`%d`), `strconv.ParseInt` in base 10,
 * `strings.Split`, `strings.TrimPrefix` and `strings.ReplaceAll`.
 */
module GoStrings {
  import opened Common

  // ---------------------------------------------------------------------------
  // Decimal formatting and parsing

  predicate IsDigitChar(ch: char) {
    '0' <= ch <= '9'
  }

  function DigitChar(d: nat): (ch: char)
    requires d < 10
    ensures IsDigitChar(ch) && DigitValue(ch) == d
  {
    ('0' as int + d) as char
  }

  function DigitValue(ch: char): (d: nat)
    requires IsDigitChar(ch)
    ensures d < 10
  {
    ch as int - '0' as int
  }

  predicate AllDigits(s: string) {
    forall i :: 0 <= i < |s| ==> IsDigitChar(s[i])
  }

  /** The decimal digits of `n`, most significant first, without leading zeros. */
  function NatDigits(n: nat): (s: string)
    ensures |s| > 0 && AllDigits(s)
    ensures s[0] == '0' ==> n == 0
    decreases n
  {
    if n < 10 then [DigitChar(n)] else NatDigits(n / 10) + [DigitChar(n % 10)]
  }

  /** `fmt.Sprintf("%d", n)`: a minus sign for negatives, then the digits. */
  function FormatInt(n: int): (s: string)
    ensures |s| > 0
    ensures '/' !in s
    ensures n >= 0 <==> s[0] != '-'
  {
    if n < 0 then "-" + NatDigits(-n) else NatDigits(n)
  }

  /** The value of a digit string (0 when empty). */
  function ParseDigits(s: string): nat
    requires AllDigits(s)
  {
    if |s| == 0 then 0 else ParseDigits(s[..|s| - 1]) * 10 + DigitValue(s[|s| - 1])
  }

  /** `strconv.ParseInt(s, 10, 64)`: an optional sign, at least one digit, and a value that fits in int64. */
  function ParseInt(s: string): (r: Option<int>)
    ensures r.Some? ==> IsInt64(r.value)
  {
    var neg := |s| > 0 && s[0] == '-';
    var body := if |s| > 0 && (s[0] == '-' || s[0] == '+') then s[1..] else s;
    if |body| == 0 || !AllDigits(body) then None
    else
      var magnitude: int := ParseDigits(body);
      var v := if neg then -magnitude else magnitude;
      if IsInt64(v) then Some(v) else None
  }

  lemma {:induction false} ParseDigitsOfNatDigits(n: nat)
    ensures ParseDigits(NatDigits(n)) == n
    decreases n
  {
    if n >= 10 {
      var s := NatDigits(n);
      assert s[..|s| - 1] == NatDigits(n / 10);
      ParseDigitsOfNatDigits(n / 10);
    }
  }

  /** Formatting an int64 and parsing it back gives the same number. */
  lemma FormatIntRoundTrip(n: int)
    requires IsInt64(n)
    ensures ParseInt(FormatInt(n)) == Some(n)
  {
    ParseDigitsOfNatDigits(if n < 0 then -n else n);
    if n < 0 {
      assert FormatInt(n)[1..] == NatDigits(-n);
    }
  }

  /** Distinct int64 values format to distinct strings. */
  lemma FormatIntInjective(a: int, b: int)
    requires IsInt64(a) && IsInt64(b) && FormatInt(a) == FormatInt(b)
    ensures a == b
  {
    FormatIntRoundTrip(a);
    FormatIntRoundTrip(b);
  }

  // ---------------------------------------------------------------------------
  // strings

  /** `strings.IndexByte`: the first position of `ch`, if any. */
  function IndexOf(s: string, ch: char): (r: Option<nat>)
    ensures r.None? <==> ch !in s
    ensures r.Some? ==> r.value < |s| && s[r.value] == ch && NotBefore(s, ch, r.value)
  {
    if |s| == 0 then None
    else if s[0] == ch then Some(0)
    else
      var r := IndexOf(s[1..], ch);
      assert s == [s[0]] + s[1..];
      if r.None? then None else Some(r.value + 1)
  }

  /** No position before `i` holds `ch`. */
  predicate NotBefore(s: string, ch: char, i: nat)
    requires i <= |s|
  {
    forall k :: 0 <= k < i ==> s[k] != ch
  }

  /** `strings.Split(s, sep)` for a one-character separator. */
  function Split(s: string, sep: char): (parts: seq<string>)
    ensures |parts| > 0
    decreases |s|
  {
    match IndexOf(s, sep)
    case None => [s]
    case Some(i) => [s[..i]] + Split(s[i + 1..], sep)
  }

  /** Split at a known first separator: the text before it, then the split of the text after it. */
  lemma SplitAtFirst(s: string, sep: char, i: nat)
    requires i < |s| && s[i] == sep && NotBefore(s, sep, i)
    ensures Split(s, sep) == [s[..i]] + Split(s[i + 1..], sep)
  {
  }

  /** A string without the separator splits into itself alone. */
  lemma SplitOfPlain(s: string, sep: char)
    requires sep !in s
    ensures Split(s, sep) == [s]
  {
  }

  lemma SplitConcatPlain(a: string, sep: char, b: string)
    requires sep !in a
    ensures Split(a + [sep] + b, sep) == [a] + Split(b, sep)
  {
    var s := a + [sep] + b;
    assert s[..|a|] == a && s[|a|] == sep;
    assert s[|a| + 1..] == b;
    assert NotBefore(s, sep, |a|) by {
      forall k | 0 <= k < |a| ensures s[k] != sep {
        assert s[k] == a[k];
      }
    }
    SplitAtFirst(s, sep, |a|);
  }

  /** Positions up to `i` of `a + [sep] + b` are those of `a`, and what follows position `i` is the rest of `a`, the separator and `b`. */
  lemma JoinedPrefix(a: string, sep: char, b: string, i: nat)
    requires i < |a| && NotBefore(a, sep, i)
    ensures (a + [sep] + b)[..i] == a[..i] && (a + [sep] + b)[i] == a[i]
    ensures (a + [sep] + b)[i + 1..] == a[i + 1..] + [sep] + b
    ensures NotBefore(a + [sep] + b, sep, i)
  {
    var s := a + [sep] + b;
    forall k | 0 <= k < i ensures s[k] != sep {
      assert s[k] == a[k];
    }
  }

  lemma SplitConcatStep(a: string, sep: char, b: string, i: nat)
    requires i < |a| && a[i] == sep && NotBefore(a, sep, i)
    requires Split(a[i + 1..] + [sep] + b, sep) == Split(a[i + 1..], sep) + Split(b, sep)
    ensures Split(a + [sep] + b, sep) == Split(a, sep) + Split(b, sep)
  {
    var s := a + [sep] + b;
    JoinedPrefix(a, sep, b, i);
    SplitAtFirst(s, sep, i);
    SplitAtFirst(a, sep, i);
    Regroup(Split(s, sep), Split(a, sep), [a[..i]], Split(a[i + 1..], sep), Split(b, sep));
  }

  lemma Regroup<T>(whole: seq<T>, left: seq<T>, head: seq<T>, middle: seq<T>, tail: seq<T>)
    requires whole == head + (middle + tail) && left == head + middle
    ensures whole == left + tail
  {
  }

  /** Splitting two strings joined by one separator splits each of them and concatenates the parts. */
  lemma {:induction false} SplitConcat(a: string, sep: char, b: string)
    ensures Split(a + [sep] + b, sep) == Split(a, sep) + Split(b, sep)
    decreases |a|
  {
    var first := IndexOf(a, sep);
    if first.None? {
      SplitConcatPlain(a, sep, b);
      SplitOfPlain(a, sep);
    } else {
      SplitConcat(a[first.value + 1..], sep, b);
      SplitConcatStep(a, sep, b, first.value);
    }
  }

  predicate HasPrefix(s: string, prefix: string) {
    |prefix| <= |s| && s[..|prefix|] == prefix
  }

  /** `strings.TrimPrefix`: drops `prefix` once when `s` starts with it. */
  function TrimPrefix(s: string, prefix: string): (r: string)
    ensures HasPrefix(s, prefix) ==> prefix + r == s
    ensures !HasPrefix(s, prefix) ==> r == s
  {
    if HasPrefix(s, prefix) then s[|prefix|..] else s
  }

  /** `strings.ReplaceAll`: every non-overlapping occurrence of `pat`, scanning left to right, becomes `rep`. */
  function ReplaceAll(s: string, pat: string, rep: string): (r: string)
    requires |pat| > 0
    ensures |s| < |pat| ==> r == s
    decreases |s|
  {
    if |s| < |pat| then s
    else if s[..|pat|] == pat then rep + ReplaceAll(s[|pat|..], pat, rep)
    else [s[0]] + ReplaceAll(s[1..], pat, rep)
  }

  /** A character that cannot begin the pattern is copied through, and the scan resumes after it. */
  lemma ReplaceAllSkip(c: char, t: string, pat: string, rep: string)
    requires |pat| > 0 && c != pat[0]
    ensures ReplaceAll([c] + t, pat, rep) == [c] + ReplaceAll(t, pat, rep)
  {
    var s := [c] + t;
    assert s[1..] == t;
    if |s| >= |pat| {
      assert s[..|pat|][0] == c;
    }
  }

  /** An occurrence of the pattern at the front is replaced, and the scan resumes after it. */
  lemma ReplaceAllMatch(t: string, pat: string, rep: string)
    requires |pat| > 0
    ensures ReplaceAll(pat + t, pat, rep) == rep + ReplaceAll(t, pat, rep)
  {
    var s := pat + t;
    assert s[..|pat|] == pat && s[|pat|..] == t;
  }
}
