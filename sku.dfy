/** SKU generation: "SKU-" + last six digits of the clock + a zero-padded random suffix,
    retried until no stored product holds the candidate. */
module SkuGen {
  import opened Common
  import opened Entities

  /** `Math.floor(Math.random() * 1000)`: an integer in [0, 999]. */
  type Draw = r: nat | r < 1000

  predicate IsDigit(c: char)
  {
    '0' <= c <= '9'
  }

  predicate AllDigits(s: string)
  {
    forall i :: 0 <= i < |s| ==> IsDigit(s[i])
  }

  function DigitChar(d: nat): (c: char)
    requires d < 10
    ensures IsDigit(c) && c as int - '0' as int == d
  {
    ('0' as int + d) as char
  }

  function Pow10(k: nat): (p: nat)
    ensures p >= 1
  {
    if k == 0 then 1 else 10 * Pow10(k - 1)
  }

  /** The value of a string of decimal digits (what `parseInt` reads back). */
  function DigitsValue(s: string): nat
    requires AllDigits(s)
  {
    if s == [] then 0
    else DigitsValue(s[..|s| - 1]) * 10 + (s[|s| - 1] as int - '0' as int)
  }

  /** `n.toString()` for a non-negative integer. */
  function DecimalString(n: nat): string
    decreases n
  {
    if n < 10 then [DigitChar(n)] else DecimalString(n / 10) + [DigitChar(n % 10)]
  }

  /** The rendering is a non-empty run of digits with no leading zero. */
  lemma {:induction false} DecimalStringDigits(n: nat)
    ensures 1 <= |DecimalString(n)| && AllDigits(DecimalString(n))
    ensures |DecimalString(n)| > 1 ==> DecimalString(n)[0] != '0'
    decreases n
  {
    if n >= 10 {
      var head := DecimalString(n / 10);
      DecimalStringDigits(n / 10);
      var s := DecimalString(n);
      assert s == head + [DigitChar(n % 10)];
      forall i | 0 <= i < |s| ensures IsDigit(s[i]) {
        if i < |head| { assert s[i] == head[i]; }
      }
      assert s[0] == head[0];
      if |head| == 1 {
        assert head == [DigitChar(n / 10)];
      }
    }
  }

  lemma {:induction false} DecimalStringRoundTrip(n: nat)
    ensures AllDigits(DecimalString(n)) && DigitsValue(DecimalString(n)) == n
    decreases n
  {
    DecimalStringDigits(n);
    var s := DecimalString(n);
    if n >= 10 {
      DecimalStringRoundTrip(n / 10);
      assert s[..|s| - 1] == DecimalString(n / 10);
    }
  }

  /** The decimal string has more than k digits exactly when n >= 10^k. */
  lemma {:induction false} DecimalStringLength(n: nat, k: nat)
    requires k >= 1
    ensures |DecimalString(n)| > k <==> n >= Pow10(k)
    decreases n
  {
    Pow10AtLeast10(k);
    if n >= 10 && k > 1 {
      DecimalStringLength(n / 10, k - 1);
    } else if n >= 10 {
      DecimalStringDigits(n / 10);
      assert |DecimalString(n)| == |DecimalString(n / 10)| + 1;
    } else {
      assert DecimalString(n) == [DigitChar(n)];
    }
  }

  lemma {:induction false} Pow10AtLeast10(k: nat)
    requires k > 0
    ensures Pow10(k) >= 10
  {
    if k > 1 { Pow10AtLeast10(k - 1); }
  }

  /** `s.slice(-6)`: the last six characters, or all of a shorter string. */
  function LastSix(s: string): string
  {
    if |s| >= 6 then s[|s| - 6..] else s
  }

  lemma LastSixIsSuffix(s: string)
    ensures |LastSix(s)| == if |s| >= 6 then 6 else |s|
    ensures LastSix(s) == s[|s| - |LastSix(s)|..]
  {
  }

  /** `s.padStart(n, "0")`: zeros prepended up to length n; a longer string is unchanged. */
  function PadStartZeros(s: string, n: nat): string
  {
    if |s| >= n then s else seq(n - |s|, _ => '0') + s
  }

  lemma PadStartZerosShape(s: string, n: nat)
    ensures |PadStartZeros(s, n)| == if |s| >= n then |s| else n
    ensures PadStartZeros(s, n)[|PadStartZeros(s, n)| - |s|..] == s
    ensures forall i :: 0 <= i < |PadStartZeros(s, n)| - |s| ==> PadStartZeros(s, n)[i] == '0'
  {
    if |s| < n {
      var z := seq(n - |s|, _ => '0');
      assert (z + s)[|z|..] == s;
    }
  }

  /** The three-character suffix of a candidate. */
  function Suffix(r: Draw): string
  {
    PadStartZeros(DecimalString(r), 3)
  }

  lemma {:induction false} DigitsValueAppend(a: string, b: string)
    requires AllDigits(a) && AllDigits(b)
    ensures AllDigits(a + b)
    ensures DigitsValue(a + b) == DigitsValue(a) * Pow10(|b|) + DigitsValue(b)
    decreases |b|
  {
    var ab := a + b;
    forall i | 0 <= i < |ab| ensures IsDigit(ab[i]) {
      if i >= |a| { assert ab[i] == b[i - |a|]; }
    }
    if b == [] {
      assert ab == a;
    } else {
      var b' := b[..|b| - 1];
      var d := b[|b| - 1] as int - '0' as int;
      assert ab[..|ab| - 1] == a + b';
      assert ab[|ab| - 1] == b[|b| - 1];
      DigitsValueAppend(a, b');
      var x, p, y := DigitsValue(a), Pow10(|b'|), DigitsValue(b');
      assert DigitsValue(ab) == (x * p + y) * 10 + d;
      assert DigitsValue(b) == y * 10 + d;
      assert Pow10(|b|) == 10 * p;
      ShiftInDigit(x, p, y, d);
    }
  }

  /** Appending a digit to `a + b'` multiplies the whole value by ten. */
  lemma ShiftInDigit(x: int, p: int, y: int, d: int)
    ensures (x * p + y) * 10 + d == x * (10 * p) + (y * 10 + d)
  {
  }

  lemma {:induction false} ZerosValue(n: nat)
    ensures AllDigits(seq(n, _ => '0'))
    ensures DigitsValue(seq(n, _ => '0')) == 0
  {
    if n > 0 {
      assert seq(n, _ => '0')[..n - 1] == seq(n - 1, _ => '0');
      ZerosValue(n - 1);
    }
  }

  /** The suffix is exactly three digits and reads back as the draw. */
  lemma SuffixRoundTrip(r: Draw)
    ensures |Suffix(r)| == 3 && AllDigits(Suffix(r))
    ensures DigitsValue(Suffix(r)) == r
  {
    var d := DecimalString(r);
    DecimalStringLength(r, 3);
    DecimalStringRoundTrip(r);
    if |d| < 3 {
      ZerosValue(3 - |d|);
      DigitsValueAppend(seq(3 - |d|, _ => '0'), d);
    }
  }

  /** One candidate: `SKU-${timestamp}${random}`. */
  function Candidate(now: nat, r: Draw): string
  {
    "SKU-" + LastSix(DecimalString(now)) + Suffix(r)
  }

  /** The clock part of a candidate is made of digits. */
  lemma ClockPartDigits(now: nat)
    ensures AllDigits(LastSix(DecimalString(now)))
  {
    var d := DecimalString(now);
    var t := LastSix(d);
    DecimalStringDigits(now);
    LastSixIsSuffix(d);
    forall i | 0 <= i < |t| ensures IsDigit(t[i]) {
      assert t[i] == d[|d| - |t| + i];
    }
  }

  /** A candidate is the prefix followed by the clock part and the suffix. */
  lemma CandidateParts(now: nat, r: Draw)
    ensures Candidate(now, r)[..4] == "SKU-"
    ensures Candidate(now, r)[4..] == LastSix(DecimalString(now)) + Suffix(r)
  {
    var t := LastSix(DecimalString(now));
    assert Candidate(now, r) == "SKU-" + (t + Suffix(r));
  }

  /** Layout of a candidate: the prefix, at most six clock digits, then the three-digit suffix,
      which reads back as the draw. */
  lemma CandidateLayout(now: nat, r: Draw)
    ensures |Candidate(now, r)| == 7 + |LastSix(DecimalString(now))|
    ensures Candidate(now, r)[..4] == "SKU-"
    ensures AllDigits(Candidate(now, r)[4..])
    ensures Candidate(now, r)[|Candidate(now, r)| - 3..] == Suffix(r)
    ensures AllDigits(Suffix(r)) && DigitsValue(Suffix(r)) == r
  {
    var t := LastSix(DecimalString(now));
    SuffixRoundTrip(r);
    ClockPartDigits(now);
    CandidateParts(now, r);
    DigitsValueAppend(t, Suffix(r));
    var c := Candidate(now, r);
    assert c[|c| - 3..] == (t + Suffix(r))[|t|..];
  }

  /** Once the clock reading has at least six digits every candidate is thirteen characters. */
  lemma CandidateLength(now: nat, r: Draw)
    requires now >= 100000
    ensures |Candidate(now, r)| == 13
  {
    DecimalStringLength(now, 5);
    SuffixRoundTrip(r);
  }

  /** Two draws in the same millisecond give different candidates unless the random parts agree. */
  lemma CandidateDistinguishesDraws(now: nat, r1: Draw, r2: Draw)
    ensures Candidate(now, r1) == Candidate(now, r2) <==> r1 == r2
  {
    if Candidate(now, r1) == Candidate(now, r2) {
      CandidateLayout(now, r1);
      CandidateLayout(now, r2);
    }
  }

  /** The store lookup `findOne({ where: { sku } })` finds a product. */
  predicate SkuTaken(products: map<Id, Product>, sku: string)
  {
    exists id :: id in products && products[id].sku == sku
  }

  /** Every one of the first n draws yields a candidate some stored product already holds. */
  predicate AllTaken(products: map<Id, Product>, draws: seq<(nat, Draw)>, n: nat)
    requires n <= |draws|
  {
    forall j :: 0 <= j < n ==> SkuTaken(products, Candidate(draws[j].0, draws[j].1))
  }

  /** A taken candidate at position n extends the run of taken candidates by one. */
  lemma AllTakenExtend(products: map<Id, Product>, draws: seq<(nat, Draw)>, n: nat)
    requires n < |draws| && AllTaken(products, draws, n)
    requires SkuTaken(products, Candidate(draws[n].0, draws[n].1))
    ensures AllTaken(products, draws, n + 1)
  {
    forall j | 0 <= j < n + 1
      ensures SkuTaken(products, Candidate(draws[j].0, draws[j].1))
    {
      if j < n {
        assert SkuTaken(products, Candidate(draws[j].0, draws[j].1));
      }
    }
  }

  /** A free candidate at position n means the first m > n candidates are not all taken. */
  lemma FreeBreaksAllTaken(products: map<Id, Product>, draws: seq<(nat, Draw)>, n: nat, m: nat)
    requires n < m <= |draws|
    requires !SkuTaken(products, Candidate(draws[n].0, draws[n].1))
    ensures !AllTaken(products, draws, m)
  {
  }

  /** The retry loop. The clock and the random source are the oracle `draws`, one pair per
      iteration; the source loops without bound, so running out of draws while every candidate
      collides yields None. The product table is a value: generation writes nothing. */
  method GenerateSku(products: map<Id, Product>, draws: seq<(nat, Draw)>)
    returns (sku: Option<string>, attempts: nat)
    ensures attempts <= |draws|
    ensures sku.Some? ==>
      && 1 <= attempts
      && AllTaken(products, draws, attempts - 1)
      && sku.value == Candidate(draws[attempts - 1].0, draws[attempts - 1].1)
      && !SkuTaken(products, sku.value)
    ensures sku.None? <==> AllTaken(products, draws, |draws|)
  {
    var taken := true;
    var candidate := "";
    attempts := 0;
    while taken && attempts < |draws|
      invariant attempts <= |draws|
      invariant attempts == 0 ==> taken
      invariant attempts > 0 ==> AllTaken(products, draws, attempts - 1)
      invariant attempts > 0 ==> candidate == Candidate(draws[attempts - 1].0, draws[attempts - 1].1)
      invariant attempts > 0 ==> taken == SkuTaken(products, candidate)
    {
      if attempts > 0 {
        AllTakenExtend(products, draws, attempts - 1);
      }
      candidate := Candidate(draws[attempts].0, draws[attempts].1);
      taken := SkuTaken(products, candidate);
      attempts := attempts + 1;
    }
    if taken {
      if attempts > 0 {
        AllTakenExtend(products, draws, attempts - 1);
      }
      sku := None;
    } else {
      FreeBreaksAllTaken(products, draws, attempts - 1, |draws|);
      sku := Some(candidate);
    }
  }
}
