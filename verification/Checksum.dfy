/** The IPv4 header checksum over ten 16-bit words, with a single fold of the carry. */
module Checksum {

  const WORD: nat := 0x1_0000
  const WORDS: nat := 10
  const SUM_WORD: nat := 5

  type Word = w: int | 0 <= w < WORD

  function Sum(ws: seq<Word>): nat {
    if ws == [] then 0 else Sum(ws[..|ws| - 1]) + ws[|ws| - 1]
  }

  // One addition of the carry to the low word.
  function Fold(n: nat): nat {
    n / WORD + n % WORD
  }

  // The one's-complement sum: carries are added until none is left.
  function Folded(n: nat): (r: nat)
    ensures r < WORD
    decreases n
  {
    if n < WORD then n else Folded(Fold(n))
  }

  // The 16 low bits of the complement.
  function Complement(n: nat): Word {
    WORD - 1 - n % WORD
  }

  function Cleared(header: seq<Word>): seq<Word>
    requires |header| == WORDS
  {
    header[SUM_WORD := 0]
  }

  // The header without checksum and destination address, its last two words.
  function WithoutDestination(header: seq<Word>): seq<Word>
    requires |header| == WORDS
  {
    WithDestination(Cleared(header), 0, 0)
  }

  function WithDestination(header: seq<Word>, high: Word, low: Word): seq<Word>
    requires |header| == WORDS
  {
    header[8 := high][9 := low]
  }

  // calculate_ip_checksum()
  function Stamped(header: seq<Word>): seq<Word>
    requires |header| == WORDS
  {
    header[SUM_WORD := Complement(Fold(Sum(Cleared(header))))]
  }

  // What a receiver checks (RFC 791, section 3.1; RFC 1071, section 1).
  predicate Verifies(header: seq<Word>) {
    Folded(Sum(header)) == 0xFFFF
  }

  // -- Sums -------------------------------------------------------------------

  lemma {:induction false} SumBound(ws: seq<Word>)
    ensures Sum(ws) <= |ws| * (WORD - 1)
  {
    if ws != [] {
      SumBound(ws[..|ws| - 1]);
    }
  }

  lemma {:induction false} SumUpdate(ws: seq<Word>, i: nat, w: Word)
    requires i < |ws|
    ensures Sum(ws[i := w]) == Sum(ws) - ws[i] + w
  {
    var last := |ws| - 1;
    if i == last {
      assert ws[i := w][..last] == ws[..last];
    } else {
      assert ws[i := w][..last] == ws[..last][i := w];
      SumUpdate(ws[..last], i, w);
    }
  }

  // Folding keeps the value modulo 0xFFFF, and never turns a positive number into zero.
  lemma {:induction false} FoldedModulo(n: nat)
    ensures Folded(n) == 0xFFFF <==> n > 0 && n % 0xFFFF == 0
    decreases n
  {
    if n >= WORD {
      FoldedModulo(Fold(n));
      assert n == Fold(n) + n / WORD * 0xFFFF;
      ModuloShift(Fold(n), n / WORD);
    } else if 0 < n && n % 0xFFFF == 0 {
      assert n == 0xFFFF;
    }
  }

  lemma ModuloShift(a: nat, k: nat)
    ensures (a + k * 0xFFFF) % 0xFFFF == a % 0xFFFF
  {
    var q, r := a / 0xFFFF, a % 0xFFFF;
    assert a + k * 0xFFFF == (q + k) * 0xFFFF + r;
    UniqueRemainder(a + k * 0xFFFF, q + k, r);
  }

  lemma UniqueRemainder(n: nat, q: nat, r: nat)
    ensures n == q * 0xFFFF + r && r < 0xFFFF ==> n % 0xFFFF == r
  {
  }

  // Nine words leave a carry of at most eight, so folding once leaves a carry of at most one, and twice none.
  lemma FoldBounds(header: seq<Word>)
    requires |header| == WORDS
    ensures Fold(Sum(Cleared(header))) < WORD + 8
    ensures Fold(Fold(Sum(Cleared(header)))) < WORD
  {
    SumBound(header);
    SumUpdate(header, SUM_WORD, 0);
    NineWords(header);
  }

  lemma NineWords(header: seq<Word>)
    requires |header| == WORDS
    ensures Sum(Cleared(header)) <= 9 * (WORD - 1)
  {
    var full: Word := 0xFFFF;
    SumUpdate(header, SUM_WORD, 0);
    SumUpdate(header, SUM_WORD, full);
    SumBound(header[SUM_WORD := full]);
  }

  lemma WithSum(header: seq<Word>, w: Word)
    requires |header| == WORDS
    ensures Sum(header[SUM_WORD := w]) == Sum(Cleared(header)) + w
  {
    SumUpdate(header, SUM_WORD, 0);
    SumUpdate(header, SUM_WORD, w);
  }

  // -- The checksum -----------------------------------------------------------

  /** The stamped header verifies exactly when the single fold leaves no carry. */
  lemma ChecksumExactness(header: seq<Word>)
    requires |header| == WORDS
    ensures Verifies(Stamped(header)) <==> Fold(Sum(Cleared(header))) < WORD
  {
    var s := Sum(Cleared(header));
    var f, k := Fold(s), s / WORD;
    FoldBounds(header);
    WithSum(header, Complement(f));
    var total := Sum(Stamped(header));
    FoldedModulo(total);
    assert s == f + k * 0xFFFF;
    if f < WORD {
      assert total == 0 + (k + 1) * 0xFFFF;
      ModuloShift(0, k + 1);
    } else {
      assert f % WORD == f - WORD;
      assert total == 1 + (k + 2) * 0xFFFF;
      ModuloShift(1, k + 2);
    }
  }

  /** Folding a second time makes every header verify. */
  lemma SecondFoldSuffices(header: seq<Word>)
    requires |header| == WORDS
    ensures Verifies(header[SUM_WORD := Complement(Fold(Fold(Sum(Cleared(header)))))])
  {
    var s := Sum(Cleared(header));
    var f, g, k := Fold(s), Fold(Fold(s)), s / WORD;
    FoldBounds(header);
    WithSum(header, Complement(g));
    FoldedModulo(s + Complement(g));
    assert s == f + k * 0xFFFF && f == g + f / WORD * 0xFFFF;
    assert s + Complement(g) == 0 + (k + f / WORD + 1) * 0xFFFF;
    ModuloShift(0, k + f / WORD + 1);
  }

  /** Whatever the rest of the header holds, some destination address gets a checksum that does not verify, unless
      all the rest is zero. */
  lemma SomeDestinationFails(header: seq<Word>) returns (high: Word, low: Word)
    requires |header| == WORDS && Sum(WithoutDestination(header)) > 0
    ensures !Verifies(Stamped(WithDestination(header, high, low)))
  {
    var rest := WithoutDestination(header);
    var s := Sum(rest);
    var d := if s % WORD == 0 then 0xFFFF else 2 * WORD - 1 - s % WORD;
    high, low := if d < WORD then d else 0xFFFF, if d < WORD then 0 else d - 0xFFFF;
    var marked := WithDestination(header, high, low);
    assert Cleared(marked) == WithDestination(rest, high, low);
    SumUpdate(rest, 8, high);
    SumUpdate(rest[8 := high], 9, low);
    assert Sum(Cleared(marked)) == s + d;
    var k := (s + d) / WORD;
    assert k > 0 && (s + d) % WORD == 0xFFFF;
    ChecksumExactness(marked);
  }

  method CalculateChecksum(header: array<Word>)
    requires header.Length == WORDS
    modifies header
    ensures header[..] == Stamped(old(header[..]))
  {
    ghost var was := header[..];
    header[SUM_WORD] := 0;
    assert header[..] == Cleared(was);
    var sum: nat := 0;
    var i := 0;
    while i < WORDS
      invariant 0 <= i <= WORDS && header[..] == Cleared(was)
      invariant sum == Sum(header[..i])
    {
      assert header[..i + 1][..i] == header[..i];
      sum := sum + header[i];
      i := i + 1;
    }
    assert header[..WORDS] == header[..];
    sum := sum / WORD + sum % WORD;
    header[SUM_WORD] := WORD - 1 - sum % WORD;
    assert header[..] == Stamped(was);
  }
}
