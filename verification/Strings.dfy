/** Splitting, joining and filtering of strings, and decimal numbers. */
module Strings {

  import opened Arithmetic
  import opened Options

  // -- Searching --------------------------------------------------------------

  predicate At(s: string, d: string, i: nat) {
    i + |d| <= |s| && s[i..i + |d|] == d
  }

  // The first occurrence, or -1.
  function Find(s: string, d: string): (r: int)
    ensures r >= 0 ==> At(s, d, r) && r + |d| <= |s|
    ensures forall i: nat :: (r < 0 || i < r) ==> !At(s, d, i)
  {
    if |s| < |d| then -1
    else if s[..|d|] == d then 0
    else
      OccursInTail(s, d);
      var r := Find(s[1..], d);
      if r < 0 then -1 else r + 1
  }

  lemma OccursInTail(s: string, d: string)
    requires |s| >= |d| && s[..|d|] != d
    ensures s != "" && !At(s, d, 0)
    ensures forall i: nat :: i > 0 ==> (At(s, d, i) <==> At(s[1..], d, i - 1))
  {
    var prefix := s[..|d|];
    assert |prefix| == |d| && prefix != d;
    forall i: nat | i > 0 ensures At(s, d, i) <==> At(s[1..], d, i - 1) {
      if i + |d| <= |s| {
        assert s[1..][i - 1..i - 1 + |d|] == s[i..i + |d|];
      }
    }
  }

  ghost predicate Free(s: string, d: string) {
    forall i: nat :: !At(s, d, i)
  }

  // No proper prefix of the delimiter is also a suffix of it.
  predicate Unbordered(d: string) {
    d != "" && forall k :: 0 < k < |d| ==> d[..k] != d[|d| - k..]
  }

  // -- Splitting and joining --------------------------------------------------

  function Split(s: string, d: string): (ts: seq<string>)
    requires d != ""
    ensures ts != []
    decreases |s|
  {
    var p := Find(s, d);
    if p < 0 then [s] else [s[..p]] + Split(s[p + |d|..], d)
  }

  function Join(ts: seq<string>, d: string): string
    requires ts != []
    decreases |ts|
  {
    if |ts| == 1 then ts[0] else ts[0] + d + Join(ts[1..], d)
  }

  /** Splitting loses nothing. */
  lemma {:induction false} JoinSplit(s: string, d: string)
    requires d != ""
    ensures Join(Split(s, d), d) == s
    decreases |s|
  {
    var p := Find(s, d);
    if p >= 0 {
      var rest := s[p + |d|..];
      JoinSplit(rest, d);
      assert Split(s, d)[1..] == Split(rest, d);
      assert s == s[..p] + d + rest;
    }
  }

  lemma {:induction false} PiecesAreFree(s: string, d: string)
    requires d != ""
    ensures AllFree(Split(s, d), d)
    decreases |s|
  {
    var p := Find(s, d);
    if p >= 0 {
      PiecesAreFree(s[p + |d|..], d);
      forall i: nat ensures !At(s[..p], d, i) {
        if i + |d| <= p {
          assert s[..p][i..i + |d|] == s[i..i + |d|];
          assert !At(s, d, i);
        }
      }
    }
  }

  // Behind a piece without the delimiter, the delimiter is found where it was put.
  lemma FirstAt(t: string, d: string, rest: string)
    requires Unbordered(d) && Free(t, d)
    ensures Find(t + d + rest, d) == |t|
  {
    var s := t + d + rest;
    assert s[|t|..|t| + |d|] == d;
    assert At(s, d, |t|);
    forall j: nat | j < |t| ensures !At(s, d, j) {
      if j + |d| <= |t| {
        assert s[j..j + |d|] == t[j..j + |d|];
        assert !At(t, d, j);
      } else {
        var k := j + |d| - |t|;
        assert s[j..j + |d|][|d| - k..] == s[|t|..|t| + k] == d[..k];
      }
    }
  }

  lemma SplitPush(t: string, d: string, rest: string)
    requires Unbordered(d) && Free(t, d)
    ensures Split(t + d + rest, d) == [t] + Split(rest, d)
  {
    FirstAt(t, d, rest);
    hide At, Free, Unbordered;
    var s := t + d + rest;
    assert s[..|t|] == t && s[|t| + |d|..] == rest;
  }

  ghost predicate AllFree(ts: seq<string>, d: string) {
    forall i :: 0 <= i < |ts| ==> Free(ts[i], d)
  }

  lemma SplitOne(t: string, d: string)
    ensures d != "" && Free(t, d) ==> Split(t, d) == [t]
  {
  }

  lemma {:induction false} SplitJoin(ts: seq<string>, d: string)
    requires Unbordered(d) && ts != [] && AllFree(ts, d)
    ensures Split(Join(ts, d), d) == ts
    decreases |ts|
  {
    hide Free, Split;
    assert Free(ts[0], d);
    if |ts| == 1 {
      SplitOne(ts[0], d);
      assert ts == [ts[0]];
    } else {
      assert AllFree(ts[1..], d);
      SplitJoin(ts[1..], d);
      SplitPush(ts[0], d, Join(ts[1..], d));
      assert ts == [ts[0]] + ts[1..];
    }
  }

  /** Joining loses nothing exactly when no piece holds the delimiter, for delimiters that do not overlap themselves. */
  lemma SplitJoinExactness(ts: seq<string>, d: string)
    requires Unbordered(d) && ts != []
    ensures Split(Join(ts, d), d) == ts <==> AllFree(ts, d)
  {
    PiecesAreFree(Join(ts, d), d);
    if AllFree(ts, d) {
      SplitJoin(ts, d);
    }
  }

  /** Joining and splitting lose nothing for all pieces without the delimiter if and only if the delimiter does not
      overlap itself. */
  lemma DelimiterExactness(d: string)
    requires d != ""
    ensures (forall ts: seq<string> :: ts != [] && AllFree(ts, d) ==> Split(Join(ts, d), d) == ts) <==> Unbordered(d)
  {
    if Unbordered(d) {
      forall ts: seq<string> | ts != [] && AllFree(ts, d) ensures Split(Join(ts, d), d) == ts {
        SplitJoin(ts, d);
      }
    } else {
      var k :| 0 < k < |d| && d[..k] == d[|d| - k..];
      var x := d[..|d| - k];
      JoinTwo(x, "", d);
      assert x + d + "" == x + d && |x| > 0;
      FirstPieceEmpty(x + d, d);
      hide Free, At, Find, Unbordered;
      var ts := [x, ""];
      assert AllFree(ts, d) && Split(Join(ts, d), d)[0] != ts[0];
    }
  }

  lemma JoinTwo(a: string, b: string, d: string)
    ensures Join([a, b], d) == a + d + b
  {
    assert [a, b][1..] == [b];
  }

  lemma FirstPieceEmpty(s: string, d: string)
    ensures d != "" && At(s, d, 0) ==> Split(s, d)[0] == ""
  {
    if d != "" && At(s, d, 0) {
      assert Find(s, d) == 0 && s[..0] == "";
    }
  }

  // A single character is free of itself exactly where it does not occur.
  lemma CharFree(s: string, c: char)
    ensures Unbordered([c])
    ensures Free(s, [c]) <==> c !in s
  {
    forall i: nat ensures At(s, [c], i) <==> i < |s| && s[i] == c {
      if i < |s| {
        assert s[i..i + 1] == [s[i]];
      }
    }
  }

  // Cutting one text into head and tail is unambiguous once the tail is known.
  lemma JoinHead(a: string, b: string, tail: seq<string>, d: string)
    requires Join([a] + tail, d) == Join([b] + tail, d)
    ensures a == b
  {
    if tail == [] {
      assert [a] + tail == [a] && [b] + tail == [b];
    } else {
      assert ([a] + tail)[1..] == tail && ([b] + tail)[1..] == tail;
      var rest := d + Join(tail, d);
      assert a + d + Join(tail, d) == a + rest && b + d + Join(tail, d) == b + rest;
      assert |a| == |b|;
      assert a == (a + rest)[..|a|] && b == (b + rest)[..|b|];
    }
  }

  // split_impl
  method SplitText(str: string, delim: string) returns (tokens: seq<string>)
    requires delim != ""
    ensures tokens == Split(str, delim)
  {
    hide At;
    tokens := [];
    var rest := str;
    var pos := Find(rest, delim);
    while pos >= 0
      invariant pos == Find(rest, delim)
      invariant tokens + Split(rest, delim) == Split(str, delim)
      decreases |rest|
    {
      ghost var before, s := tokens, rest;
      tokens := tokens + [rest[..pos]];
      rest := rest[pos + |delim|..];
      assert before + ([s[..pos]] + Split(rest, delim)) == tokens + Split(rest, delim);
      pos := Find(rest, delim);
    }
    tokens := tokens + [rest];
  }

  method JoinTexts(strings: seq<string>, delim: char) returns (res: string)
    requires strings != []
    ensures res == Join(strings, [delim])
  {
    res := strings[0];
    var i := 1;
    while i < |strings|
      invariant 1 <= i <= |strings|
      invariant Join(strings, [delim]) == if i == |strings| then res else res + [delim] + Join(strings[i..], [delim])
    {
      assert strings[i..][1..] == strings[i + 1..];
      ghost var before, rest := res, strings[i..];
      res := res + [delim];
      res := res + strings[i];
      i := i + 1;
      if i < |strings| {
        assert before + [delim] + (rest[0] + [delim] + Join(strings[i..], [delim]))
            == res + [delim] + Join(strings[i..], [delim]);
      }
    }
  }

  // -- Removing a character ---------------------------------------------------

  function Without(s: string, c: char): string {
    if s == "" then "" else if s[0] == c then Without(s[1..], c) else [s[0]] + Without(s[1..], c)
  }

  lemma {:induction false} WithoutAppend(a: string, b: string, c: char)
    ensures Without(a + b, c) == Without(a, c) + Without(b, c)
  {
    if a == "" {
      assert a + b == b;
    } else {
      assert (a + b)[1..] == a[1..] + b;
      WithoutAppend(a[1..], b, c);
    }
  }

  lemma {:induction false} WithoutKeeps(s: string, c: char)
    ensures c !in Without(s, c)
    ensures c !in s ==> Without(s, c) == s
    ensures forall x :: x in Without(s, c) <==> x in s && x != c
  {
    if s != "" {
      WithoutKeeps(s[1..], c);
    }
  }

  method RemoveChar(str: string, unwanted: char) returns (res: string)
    ensures res == Without(str, unwanted)
  {
    res := "";
    for i := 0 to |str|
      invariant res == Without(str[..i], unwanted)
    {
      assert str[..i + 1] == str[..i] + [str[i]];
      WithoutAppend(str[..i], [str[i]], unwanted);
      if str[i] != unwanted {
        res := res + [str[i]];
      }
    }
    assert str[..|str|] == str;
  }

  // -- Decimal numbers --------------------------------------------------------

  predicate IsDigit(c: char) {
    '0' <= c <= '9'
  }

  predicate AllDigits(s: string) {
    forall i :: 0 <= i < |s| ==> IsDigit(s[i])
  }

  function DigitOf(n: nat): char
    requires n < 10
  {
    ('0' as int + n) as char
  }

  // std::to_string
  function Decimal(n: nat): (s: string)
    ensures s != "" && AllDigits(s)
  {
    if n < 10 then [DigitOf(n)] else Decimal(n / 10) + [DigitOf(n % 10)]
  }

  function ValueOf(s: string): nat
    requires AllDigits(s)
  {
    if s == "" then 0 else 10 * ValueOf(s[..|s| - 1]) + (s[|s| - 1] as int - '0' as int)
  }

  // util::parse into an unsigned type: the whole text must be digits, and their value must fit.
  function ParseUnsigned(s: string, limit: nat): Option<nat> {
    if s != "" && AllDigits(s) && ValueOf(s) < limit then Some(ValueOf(s)) else None
  }

  function Pow10(k: nat): (p: nat)
    ensures p > 0
  {
    if k == 0 then 1 else 10 * Pow10(k - 1)
  }

  /** Digit k from the right is that of the k-th power of ten, and there are no leading zeros. */
  lemma {:induction false} DecimalDigits(n: nat, k: nat)
    requires k < |Decimal(n)|
    ensures Decimal(n)[|Decimal(n)| - 1 - k] == DigitOf(n / Pow10(k) % 10)
    ensures n > 0 ==> Decimal(n)[0] != '0'
  {
    if n >= 10 {
      DecimalDigits(n / 10, if k > 0 then k - 1 else 0);
      if k > 0 {
        DivideTwice(n, 10, Pow10(k - 1));
      }
    }
  }

  function Zeros(k: nat): (s: string)
    ensures |s| == k && AllDigits(s)
  {
    if k == 0 then "" else Zeros(k - 1) + "0"
  }

  lemma {:induction false} ZerosAhead(k: nat)
    ensures Zeros(k + 1) == "0" + Zeros(k)
  {
    if k > 0 {
      ZerosAhead(k - 1);
      assert "0" + Zeros(k - 1) + "0" == "0" + (Zeros(k - 1) + "0");
    }
  }

  lemma {:induction false} ZerosValue(k: nat)
    ensures ValueOf(Zeros(k)) == 0
  {
    if k > 0 {
      ZerosValue(k - 1);
    }
  }

  lemma {:induction false} PaddedValue(k: nat, n: nat)
    ensures AllDigits(Zeros(k) + Decimal(n))
    ensures ValueOf(Zeros(k) + Decimal(n)) == n
  {
    if n < 10 {
      ZerosValue(k);
    } else {
      PaddedValue(k, n / 10);
      assert Zeros(k) + Decimal(n) == Zeros(k) + Decimal(n / 10) + [DigitOf(n % 10)];
    }
  }

  // Digits are the decimal form of their value behind some zeros.
  lemma {:induction false} DigitsArePadded(s: string) returns (k: nat)
    requires AllDigits(s) && s != ""
    ensures s == Zeros(k) + Decimal(ValueOf(s))
  {
    var front, c := s[..|s| - 1], s[|s| - 1];
    assert s == front + [c];
    var digit := c as int - '0' as int;
    assert c == DigitOf(digit);
    if front == "" {
      k := 0;
      assert s == [DigitOf(digit)] && ValueOf(front) == 0;
    } else {
      var j := DigitsArePadded(front);
      k := if ValueOf(front) == 0 then j + 1 else j;
    }
  }

  /** A number that fits survives printing and parsing, with any number of zeros put before it; and nothing else parses
      to it. */
  lemma ParseExactness(s: string, limit: nat, n: nat)
    ensures ParseUnsigned(s, limit) == Some(n) <==> n < limit && exists k: nat :: s == Zeros(k) + Decimal(n)
  {
    if ParseUnsigned(s, limit) == Some(n) {
      var k := DigitsArePadded(s);
    }
    if k: nat :| s == Zeros(k) + Decimal(n) {
      PaddedValue(k, n);
    }
  }

  lemma DecimalParses(n: nat, limit: nat)
    requires n < limit
    ensures ParseUnsigned(Decimal(n), limit) == Some(n)
  {
    assert Decimal(n) == Zeros(0) + Decimal(n);
    PaddedValue(0, n);
  }
}
