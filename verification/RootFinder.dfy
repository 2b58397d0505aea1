/** The digit-by-digit square roots of input_mac_mouse_legacy.c. */
module RootFinder {
  import opened Division

  function Pow4(n: nat): nat {
    if n == 0 then 1 else 4 * Pow4(n - 1)
  }

  lemma {:induction false} Pow4Split(a: nat, b: nat)
    ensures Pow4(a) > 0
    ensures Pow4(a + b) == Pow4(a) * Pow4(b)
  {
    if a > 0 {
      Pow4Split(a - 1, b);
      assert 4 * Pow4(a - 1) * Pow4(b) == 4 * (Pow4(a - 1) * Pow4(b));
    }
  }

  lemma Distribute(d: nat, p: nat, r: nat, q: nat)
    ensures (d * p + r) * q == d * (p * q) + r * q
  {}

  lemma LessScaled(r: nat, p: nat, q: nat)
    requires r < p && q > 0
    ensures r * q < p * q
  {}

  lemma DigitSmall(rest: nat, p4: nat)
    requires p4 > 0 && rest < 4 * p4
    ensures rest / p4 < 4
  {}

  /** The register holds the digits not yet consumed, `rest`, shifted up to the top of the
      word: its two highest bits are the next digit, and shifting it drops just that one. */
  lemma NextDigit(w4: nat, p4: nat, q: nat, rest: nat, x: nat, d: nat, r: nat)
    requires w4 == p4 * q && p4 > 0 && q > 0 && x == rest * q
    requires rest == d * p4 + r && r < p4
    ensures w4 > 0 && x / w4 == d && 4 * x % (4 * w4) == 4 * (r * q)
  {
    Distribute(d, p4, r, q);
    LessScaled(r, p4, q);
    LessScaled(0, p4, q);
    DivUnique(x, w4, d, r * q);
    assert d * (4 * w4) == 4 * (d * w4);
    DivUnique(4 * x, 4 * w4, d, 4 * (r * q));
  }

  /** One round: the root of the prefix so far, twice over in `root`, and the prefix minus its
      square in `rem`.  The larger digit is taken exactly when it fits. */
  lemma Round(p: nat, q: nat, rem: nat, d: nat)
    requires d < 4 && rem + q * q == p && rem <= 2 * q
    ensures var rem1 := 4 * rem + d;
      && rem1 + 4 * (q * q) == 4 * p + d
      && (4 * q + 1 <= rem1 ==>
            rem1 - (4 * q + 1) + (2 * q + 1) * (2 * q + 1) == 4 * p + d && rem1 - (4 * q + 1) <= 2 * (2 * q + 1))
      && (4 * q + 1 > rem1 ==> rem1 + (2 * q) * (2 * q) == 4 * p + d && rem1 <= 2 * (2 * q))
  {
    assert (2 * q + 1) * (2 * q + 1) == 4 * (q * q) + 4 * q + 1;
    assert (2 * q) * (2 * q) == 4 * (q * q);
  }

  lemma RootSmall(q: nat, p: nat, w: nat)
    requires q * q <= p && 4 * p < w && w >= 16
    ensures 4 * q + 2 < w
  {
    if q >= 2 { assert q * q >= 2 * q; }
  }

  /** What the loop knows after `i` rounds: `p` is the prefix consumed, `q` its root. */
  ghost predicate Running(x0: nat, rounds: nat, i: nat, p: nat, q: nat, rest: nat, x: nat, rem: nat) {
    && i <= rounds
    && rest < Pow4(rounds - i) && x0 == p * Pow4(rounds - i) + rest && x == rest * Pow4(i)
    && rem + q * q == p && rem <= 2 * q
  }

  lemma WordSplit(rounds: nat, i: nat)
    requires rounds >= 2 && i < rounds
    ensures Pow4(rounds - i - 1) > 0 && Pow4(i) > 0
    ensures Pow4(rounds) == 4 * (Pow4(rounds - i - 1) * Pow4(i)) && Pow4(rounds) >= 16
  {
    Pow4Split(rounds - i - 1, i);
    Pow4Split(i, 0);
    Pow4Split(2, rounds - 2);
    Pow4Split(rounds - 2, 0);
    assert Pow4(2) == 16;
  }

  lemma Consume(x0: nat, rounds: nat, i: nat, p: nat, q: nat, rest: nat, x: nat, rem: nat) returns (d: nat, rest': nat)
    requires rounds >= 2 && x0 < Pow4(rounds) && i < rounds && Running(x0, rounds, i, p, q, rest, x, rem)
    ensures var w := Pow4(rounds);
      && w >= 16 && d == x / (w / 4) && d < 4
      && rest' < Pow4(rounds - i - 1) && x0 == (4 * p + d) * Pow4(rounds - i - 1) + rest'
      && 4 * x % w == rest' * Pow4(i + 1)
      && 4 * p + d < w
  {
    var p4, q4 := Pow4(rounds - i - 1), Pow4(i);
    WordSplit(rounds, i);
    d, rest' := rest / p4, rest % p4;
    DigitSmall(rest, p4);
    var w4 := p4 * q4;
    DigitOf(w4, p4, q4, rest, x, d, rest', Pow4(rounds));
    PrefixGrows(x0, p, p4, rest);
    AtLeast(4 * p + d, p4);
  }

  lemma DigitOf(w4: nat, p4: nat, q4: nat, rest: nat, x: nat, d: nat, r: nat, w: nat)
    requires w4 == p4 * q4 && p4 > 0 && q4 > 0 && x == rest * q4 && w == 4 * w4
    requires d == rest / p4 && r == rest % p4
    ensures w / 4 == w4 > 0 && x / w4 == d && 4 * x % w == r * (4 * q4)
  {
    assert rest == d * p4 + r;
    NextDigit(w4, p4, q4, rest, x, d, r);
    assert 4 * (r * q4) == r * (4 * q4);
  }

  lemma AtLeast(a: nat, b: nat)
    requires b > 0
    ensures a * b >= a
  {}

  /** The loop of llsqrt and lsqrt on a word of `2 * rounds` bits, all of whose operations
      wrap.  None of them does, and the result is the integer square root. */
  method DigitRoot(x0: nat, rounds: nat) returns (r: nat)
    requires rounds >= 2 && x0 < Pow4(rounds)
    ensures r * r <= x0 < (r + 1) * (r + 1)
  {
    var w := Pow4(rounds);
    var x, rem, root := x0, 0, 0;
    var i := 0;
    ghost var p: nat, q: nat, rest: nat := 0, 0, x0;
    assert Pow4(0) == 1;
    while i < rounds
      invariant 0 <= i <= rounds
      invariant Running(x0, rounds, i, p, q, rest, x, rem) && root == 2 * q
    {
      ghost var d, rest' := Consume(x0, rounds, i, p, q, rest, x, rem);
      SmallRound(p, q, rem, d, w);
      Round(p, q, rem, d);

      root := Wrap(2 * root, w);
      rem := Wrap(Wrap(4 * rem, w) + x / (w / 4), w);
      x := 4 * x % w;
      root := Wrap(root + 1, w);
      if root <= rem {
        rem := rem - root;
        root := Wrap(root + 1, w);
        q := 2 * q + 1;
      } else {
        root := root - 1;
        q := 2 * q;
      }
      p, rest, i := 4 * p + d, rest', i + 1;
    }
    r := root / 2;
    assert (q + 1) * (q + 1) == q * q + 2 * q + 1;
  }

  /** Unsigned arithmetic on a word with `w` values. */
  function Wrap(a: nat, w: nat): (r: nat)
    requires w > 0
    ensures a < w ==> r == a
  {
    a % w
  }

  lemma PrefixGrows(x0: nat, p: nat, p4: nat, rest: nat)
    requires p4 > 0 && x0 == p * (4 * p4) + rest
    ensures x0 == (4 * p + rest / p4) * p4 + rest % p4
  {
    var d := rest / p4;
    assert rest == d * p4 + rest % p4;
    assert p * (4 * p4) == 4 * p * p4;
    assert (4 * p + d) * p4 == 4 * p * p4 + d * p4;
  }

  /** Nothing in a round leaves the word. */
  lemma SmallRound(p: nat, q: nat, rem: nat, d: nat, w: nat)
    requires rem + q * q == p && 4 * p + d < w && w >= 16
    ensures 4 * rem + d < w && 4 * q + 2 < w
  {
    RootSmall(q, p, w);
  }

  lemma WordSizes()
    ensures Pow4(32) == 0x1_0000_0000_0000_0000 && Pow4(16) == 0x1_0000_0000
  {
    assert Pow4(4) == 256;
    Pow4Split(4, 4);
    Pow4Split(8, 8);
    Pow4Split(16, 16);
  }

  lemma SquareMonotone(a: nat, b: nat)
    requires a <= b
    ensures a * a <= b * b
  {
    assert a * a <= a * b <= b * b;
  }

  lemma RootFits(r: nat, b: nat, x: nat)
    requires r * r <= x < b * b
    ensures r < b
  {
    if r >= b { SquareMonotone(b, r); }
  }

  /** 32 rounds on 64 bits; the cast of the result to 32 bits loses nothing. */
  method LLSqrt(x: nat) returns (r: nat)
    requires x < 0x1_0000_0000_0000_0000
    ensures r < 0x1_0000_0000 && r * r <= x < (r + 1) * (r + 1)
  {
    WordSizes();
    r := DigitRoot(x, 32);
    RootFits(r, 0x1_0000_0000, x);
    r := r % 0x1_0000_0000;
  }

  /** 16 rounds on 32 bits; the cast of the result to 16 bits loses nothing. */
  method LSqrt(x: nat) returns (r: nat)
    requires x < 0x1_0000_0000
    ensures r < 0x1_0000 && r * r <= x < (r + 1) * (r + 1)
  {
    WordSizes();
    r := DigitRoot(x, 16);
    RootFits(r, 0x1_0000, x);
    r := r % 0x1_0000;
  }
}
