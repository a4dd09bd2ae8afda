/** Decimal conversion over a byte buffer, the tolerant number reader, and the
    search for an unused numbered id. */
module Numbers {
  import opened Text

  const MAX_INT := 0x7FFF_FFFF_FFFF_FFFF

  /** A Go int: two's complement on 64 bits. */
  function Wrap64(n: int): int {
    (n + 0x8000_0000_0000_0000) % 0x1_0000_0000_0000_0000 - 0x8000_0000_0000_0000
  }

  // ---- itoa ----

  /** Digits of positive numbers; nothing for negative ones. */
  function Itoa(n: int): string {
    if n < 0 then "" else Numeral(n)
  }

  lemma {:induction false} NumeralWidth(n: nat, k: nat)
    requires k >= 1 && n < Pow10(k)
    ensures |Numeral(n)| <= k
  {
    if n >= 10 {
      NumeralWidth(n / 10, k - 1);
    }
  }

  function Pow10(k: nat): nat {
    if k == 0 then 1 else 10 * Pow10(k - 1)
  }

  lemma IntWidth(n: nat)
    requires n <= MAX_INT
    ensures |Numeral(n)| <= 20
  {
    assert Pow10(10) == 10_000_000_000;
    assert Pow10(20) == 100_000_000_000_000_000_000;
    NumeralWidth(n, 20);
  }

  /** Filling a 20-byte buffer backwards yields the numeral of every int. */
  method BuildItoa(n: int) returns (s: string)
    requires n <= MAX_INT
    ensures s == Itoa(n)
  {
    if n == 0 {
      return "0";
    }
    var b := new char[20](_ => '0');
    var i := 20;
    var m := n;
    if n > 0 {
      IntWidth(n);
      assert b[20..] == "";
    }
    while m > 0
      invariant 0 <= i <= 20
      invariant n < 0 ==> m == n && i == 20
      invariant n > 0 ==> m >= 0 && |Numeral(n)| <= 20
      invariant n > 0 ==> Numeral(n) == (if m == 0 then "" else Numeral(m)) + b[i..]
      decreases m
    {
      ghost var tail := b[i..];
      i := i - 1;
      b[i] := Digit(m % 10);
      assert b[i..] == [Digit(m % 10)] + tail;
      assert Numeral(m) == (if m / 10 == 0 then "" else Numeral(m / 10)) + [Digit(m % 10)];
      m := m / 10;
    }
    s := b[i..];
  }

  // ---- atoiSafe ----

  function DigitRun(s: string): (k: nat)
    ensures k <= |s| && AllDigits(s[..k])
    ensures k < |s| ==> !IsDigit(s[k])
  {
    if s == "" || !IsDigit(s[0]) then 0
    else
      var k := 1 + DigitRun(s[1..]);
      assert s[..k] == [s[0]] + s[1..][..k - 1];
      k
  }

  /** Accumulating digits in a 64-bit int. */
  function WrappedValue(s: string): int
    requires AllDigits(s)
  {
    if s == "" then 0
    else Wrap64(WrappedValue(s[..|s| - 1]) * 10 + DigitValue(s[|s| - 1]))
  }

  /** The leading digits of s, read as an int; 0 when there are none. */
  function AtoiSafe(s: string): int {
    WrappedValue(s[..DigitRun(s)])
  }

  method ReadAtoi(s: string) returns (n: int)
    ensures n == AtoiSafe(s)
  {
    n := 0;
    for i := 0 to |s|
      invariant AllDigits(s[..i]) && n == WrappedValue(s[..i])
    {
      if !IsDigit(s[i]) {
        DigitRunIs(s, i);
        return;
      }
      assert s[..i + 1][..i] == s[..i];
      n := Wrap64(n * 10 + DigitValue(s[i]));
    }
    DigitRunIs(s, |s|);
  }

  lemma DigitRunIs(s: string, i: nat)
    requires i <= |s| && AllDigits(s[..i]) && (i < |s| ==> !IsDigit(s[i]))
    ensures DigitRun(s) == i
  {
    var k := DigitRun(s);
    assert forall j :: 0 <= j < i ==> s[j] in s[..i];
    assert forall j :: 0 <= j < k ==> s[j] in s[..k];
  }

  lemma {:induction false} WrappedIsValue(s: string)
    requires AllDigits(s) && Value(s) <= MAX_INT
    ensures WrappedValue(s) == Value(s)
  {
    if s != "" {
      WrappedIsValue(s[..|s| - 1]);
    }
  }

  /** Reading back what `itoa` wrote. */
  lemma AtoiOfItoa(n: nat)
    requires n <= MAX_INT
    ensures AtoiSafe(Itoa(n)) == n
  {
    var s := Numeral(n);
    assert s[..|s|] == s;
    DigitRunIs(s, |s|);
    ValueOfNumeral(n);
    WrappedIsValue(s);
  }

  // ---- nextV6ID ----

  function Candidates(prefix: string, i: nat): set<string> {
    set j | 2 <= j < i :: prefix + Numeral(j)
  }

  lemma CandidateStep(prefix: string, i: nat)
    requires i >= 3
    ensures Candidates(prefix, i) == Candidates(prefix, i - 1) + {prefix + Numeral(i - 1)}
    ensures prefix + Numeral(i - 1) !in Candidates(prefix, i - 1)
  {
    if prefix + Numeral(i - 1) in Candidates(prefix, i - 1) {
      var j :| 2 <= j < i - 1 && prefix + Numeral(i - 1) == prefix + Numeral(j);
      assert (prefix + Numeral(j))[|prefix|..] == Numeral(j);
      assert (prefix + Numeral(i - 1))[|prefix|..] == Numeral(i - 1);
      NumeralInjective(j, i - 1);
    }
  }

  lemma PrefixIsNoCandidate(prefix: string, i: nat)
    ensures prefix !in Candidates(prefix, i)
  {
    forall j | 2 <= j < i ensures prefix != prefix + Numeral(j) {
      assert |prefix + Numeral(j)| > |prefix|;
    }
  }

  /** The candidates below i are i - 2 different ids, none of them the bare prefix. */
  lemma {:induction false} CandidateCount(prefix: string, i: nat)
    requires i >= 2
    ensures |Candidates(prefix, i)| == i - 2
  {
    if i == 2 {
      assert Candidates(prefix, i) == {};
    } else {
      CandidateCount(prefix, i - 1);
      CandidateStep(prefix, i);
    }
  }

  lemma SubsetSize<T>(a: set<T>, b: set<T>)
    requires a <= b
    ensures |a| <= |b|
  {
    assert b == a + (b - a);
  }

  lemma {:induction false} SetOfSeqSize<T>(xs: seq<T>)
    ensures |set x | x in xs| <= |xs|
  {
    if xs != [] {
      var init, last := xs[..|xs| - 1], xs[|xs| - 1];
      SetOfSeqSize(init);
      assert (set x | x in xs) == (set x | x in init) + {last} by {
        assert xs == init + [last];
      }
    }
  }

  /** The pigeonhole: while every id below i is taken, i is at most |existing| + 1. */
  lemma TakenBound(existing: seq<string>, used: set<string>, prefix: string, i: nat)
    requires i >= 2 && used == (set e | e in existing)
    requires Candidates(prefix, i) <= used && prefix in used
    ensures i <= |existing| + 1
  {
    CandidateCount(prefix, i);
    PrefixIsNoCandidate(prefix, i);
    SubsetSize(Candidates(prefix, i) + {prefix}, used);
    SetOfSeqSize(existing);
  }

  /** `nextV6ID`: the unbounded search stops, within |existing| + 1, at the least
      unused numbered id. */
  method NextV6Id(existing: seq<string>, prefix: string) returns (id: string)
    requires |existing| < MAX_INT
    ensures id !in existing
    ensures id != prefix ==> prefix in existing
    ensures id != prefix ==>
      exists i :: 2 <= i <= |existing| + 1 && id == prefix + Itoa(i) &&
        forall j :: 2 <= j < i ==> prefix + Itoa(j) in existing
  {
    var used := set e | e in existing;
    if prefix !in used {
      return prefix;
    }
    var i := 2;
    TakenBound(existing, used, prefix, i);
    while true
      invariant 2 <= i <= |existing| + 1
      invariant forall j :: 2 <= j < i ==> prefix + Itoa(j) in used
      decreases |existing| + 1 - i
    {
      var digits := BuildItoa(i);
      var cand := prefix + digits;
      if cand !in used {
        return cand;
      }
      i := i + 1;
      assert Candidates(prefix, i) <= used by {
        forall x | x in Candidates(prefix, i) ensures x in used {
          var j :| 2 <= j < i && x == prefix + Numeral(j);
          assert prefix + Itoa(j) in used;
        }
      }
      TakenBound(existing, used, prefix, i);
    }
  }
}
