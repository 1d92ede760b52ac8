/**
  Skip heights of block index entries (src/chain.cpp) and how far they carry: on the way down
  from a height below 2^k to any lower height, the walk takes at most k * k steps.
 */
module SkipList {
  import opened Common

  /** Bitwise and. */
  function And(x: nat, y: nat): (r: nat)
    ensures r <= x && r <= y
  {
    if x == 0 || y == 0 then 0
    else (if x % 2 == 1 && y % 2 == 1 then 1 else 0) + 2 * And(x / 2, y / 2)
  }

  /** The lowest set bit of a positive number, as a power of two. */
  function LowestOne(n: nat): (p: nat)
    requires n > 0
    ensures 0 < p <= n
  {
    if n % 2 == 1 then 1 else 2 * LowestOne(n / 2)
  }

  function InvertLowestOne(n: int): (r: nat)
    requires n > 0
    ensures r < n
  {
    And(n, n - 1)
  }

  /** n & (n - 1) clears exactly the lowest set bit. */
  lemma {:induction false} ClearsLowest(n: nat)
    requires n > 0
    ensures InvertLowestOne(n) == n - LowestOne(n)
  {
    if n % 2 == 1 {
      assert (n - 1) / 2 == n / 2;
      SelfAnd(n / 2);
    } else {
      ClearsLowest(n / 2);
      assert (n - 1) / 2 == n / 2 - 1 && (n - 1) % 2 == 1;
    }
  }

  lemma {:induction false} SelfAnd(n: nat)
    ensures And(n, n) == n
  {
    if n > 0 { SelfAnd(n / 2); }
  }

  function GetSkipHeight(height: int): (r: nat)
    ensures height > 0 ==> r < height
  {
    if height < 2 then 0
    else if height % 2 == 1 then
      (if InvertLowestOne(height - 1) == 0 then 0 else InvertLowestOne(InvertLowestOne(height - 1))) + 1
    else InvertLowestOne(height)
  }

  // --------------------------------------------------------------- one step down

  /** Whether GetAncestor follows the skip link. */
  predicate FollowsSkip(h: int, t: int) {
    var skip, skipPrev := GetSkipHeight(h), GetSkipHeight(h - 1);
    skip == t || (skip > t && !(skipPrev < skip - 2 && skipPrev >= t))
  }

  function Down(h: nat, t: nat): (r: nat)
    requires t < h
    ensures t <= r < h
  {
    if FollowsSkip(h, t) then GetSkipHeight(h) else h - 1
  }

  /** The number of steps from height h to height t. */
  function Steps(h: nat, t: nat): nat {
    if h <= t then 0 else 1 + Steps(Down(h, t), t)
  }

  lemma StepTaken(h: nat, t: nat)
    requires t < h
    ensures Steps(h, t) == 1 + Steps(if FollowsSkip(h, t) then GetSkipHeight(h) else h - 1, t)
  {
  }

  // ------------------------------------------------------------------ set bits

  function Ones(n: nat): nat {
    if n == 0 then 0 else n % 2 + Ones(n / 2)
  }

  /** A number without its lowest set bit; zero stays zero. */
  function Cleared(n: nat): (r: nat)
    ensures r <= n && (n > 0 ==> r < n)
  {
    if n == 0 then 0 else n - LowestOne(n)
  }

  lemma SkipIs(h: nat)
    ensures h >= 2 && h % 2 == 0 ==> GetSkipHeight(h) == Cleared(h)
    ensures h >= 3 && h % 2 == 1 ==> GetSkipHeight(h) == Cleared(Cleared(h - 1)) + 1
  {
    hide InvertLowestOne, LowestOne;
    if h >= 2 && h % 2 == 0 { ClearsLowest(h); }
    if h >= 3 && h % 2 == 1 {
      ClearsLowest(h - 1);
      if Cleared(h - 1) > 0 { ClearsLowest(Cleared(h - 1)); }
    }
  }

  lemma Doubled(n: nat)
    ensures Ones(2 * n) == Ones(n) && Ones(2 * n + 1) == Ones(n) + 1
    ensures LowestOne(2 * n + 1) == 1 && (n > 0 ==> LowestOne(2 * n) == 2 * LowestOne(n))
  {
  }

  lemma {:induction false} ClearedOnes(n: nat)
    ensures n > 0 ==> Ones(Cleared(n)) == Ones(n) - 1
    ensures n % 2 == 0 ==> Cleared(n) % 2 == 0
  {
    hide Ones, LowestOne;
    var m := n / 2;
    Doubled(m);
    if n > 0 && n % 2 == 0 {
      ClearedOnes(m);
      Doubled(Cleared(m));
    }
  }

  lemma {:induction false} OnesBound(x: nat, b: nat)
    requires x < Pow2(b)
    ensures Ones(x) <= b
  {
    if x > 0 { OnesBound(x / 2, b - 1); }
  }

  /** No bit below b is set. */
  predicate Aligned(a: nat, b: nat) {
    b == 0 || (a % 2 == 0 && Aligned(a / 2, b - 1))
  }

  lemma {:induction false} AlignedLess(a: nat, b: nat)
    requires Aligned(a, b + 1)
    ensures Aligned(a, b) && Aligned(a + Pow2(b), b)
  {
    if b > 0 {
      AlignedLess(a / 2, b - 1);
      assert (a + Pow2(b)) / 2 == a / 2 + Pow2(b - 1);
    }
  }

  /** Bits from b on play no part while there are set bits below. */
  lemma {:induction false} ClearedLow(a: nat, x: nat, b: nat)
    requires Aligned(a, b) && 0 < x < Pow2(b)
    ensures Cleared(a + x) == a + Cleared(x)
  {
    if x % 2 == 0 {
      ClearedLow(a / 2, x / 2, b - 1);
      assert (a + x) / 2 == a / 2 + x / 2;
    }
  }

  /** The bit at b is the lowest one when nothing is set below. */
  lemma {:induction false} ClearedTop(base: nat, b: nat)
    requires Aligned(base, b + 1)
    ensures Cleared(base + Pow2(b)) == base
  {
    if b > 0 {
      ClearedTop(base / 2, b - 1);
      assert (base + Pow2(b)) / 2 == base / 2 + Pow2(b - 1);
    }
  }

  /** Clearing a bit of an aligned number goes down by at least that much. */
  lemma {:induction false} ClearedFar(base: nat, b: nat)
    requires Aligned(base, b) && base > 0
    ensures Cleared(base) <= base - Pow2(b)
  {
    if b > 0 { ClearedFar(base / 2, b - 1); }
  }

  // --------------------------------------------------- the first bit that differs

  /** Bit b is the highest in which h and t differ; base is what they share above it and x what h has below. */
  ghost predicate Apart(h: nat, t: nat, b: nat, base: nat, x: nat) {
    && Aligned(base, b + 1) && h == base + Pow2(b) + x && x < Pow2(b)
    && base <= t < base + Pow2(b)
  }

  lemma {:induction false} Locate(h: nat, t: nat, k: nat, base: nat) returns (b: nat, base': nat, x: nat)
    requires Aligned(base, k) && base <= t < h < base + Pow2(k)
    ensures b < k && Apart(h, t, b, base', x)
    decreases k
  {
    AlignedLess(base, k - 1);
    var mid := base + Pow2(k - 1);
    if t >= mid {
      b, base', x := Locate(h, t, k - 1, mid);
    } else if h < mid {
      b, base', x := Locate(h, t, k - 1, base);
    } else {
      b, base', x := k - 1, base, h - mid;
    }
  }

  function Square(n: nat): nat {
    n * n
  }

  /** How many steps are left at most. */
  function Left(b: nat, x: nat, near: bool): nat {
    if b == 0 then 1
    else
      var ones := Ones(x - x % 2);
      Square(b) + 1 + 2 * ones + if x % 2 == 0 then 0 else if ones >= 2 || (ones == 1 && near) then -1 else 1
  }

  lemma NoOnes(n: nat)
    ensures Ones(n) == 0 ==> n == 0
  {
    if n > 1 { NoOnes(n / 2); }
  }

  lemma LeftBound(b: nat, x: nat, near: bool)
    requires x < Pow2(b)
    ensures 1 <= Left(b, x, near) <= Square(b + 1)
    ensures b > 0 ==> Left(b, x, near) < Square(b + 1)
  {
    if b > 0 {
      assert Ones(x - x % 2) == Ones(x / 2);
      OnesBound(x / 2, b - 1);
      assert (b + 1) * (b + 1) == b * b + 2 * b + 1;
    }
  }

  /** Nothing is left below bit b: one step back, unless t itself is reached. */
  lemma StepTop(h: nat, t: nat, b: nat, base: nat) returns (b': nat, base': nat, x': nat)
    requires Apart(h, t, b, base, 0)
    ensures Down(h, t) > t ==>
      Apart(Down(h, t), t, b', base', x') && Left(b', x', t <= base' + 1) < Left(b, 0, t <= base + 1)
  {
    hide GetSkipHeight, Cleared, Square;
    b', base', x' := b, base, 0;
    if b > 0 {
      AlignedLess(base, b);
      assert h % 2 == 0;
      SkipIs(h);
      ClearedTop(base, b);
      if Down(h, t) > t {
        b', base', x' := Locate(h - 1, t, b, base);
        LeftBound(b', x', t <= base' + 1);
        SquareMono(b' + 1, b);
      }
    }
  }

  lemma SquareMono(a: nat, b: nat)
    requires a <= b
    ensures Square(a) <= Square(b)
  {
  }

  /** What clearing bits of h means for the part below bit b. */
  lemma ClearedBelow(h: nat, t: nat, b: nat, base: nat, x: nat, y: nat)
    requires Apart(h, t, b, base, x) && y <= x
    ensures Cleared(base + Pow2(b) + y) == if y == 0 then base else base + Pow2(b) + Cleared(y)
  {
    hide Cleared;
    AlignedLess(base, b);
    if y == 0 { ClearedTop(base, b); } else { ClearedLow(base + Pow2(b), y, b); }
  }

  /** At an odd height two bits are cleared at once while there are two. */
  lemma StepOddFar(h: nat, t: nat, b: nat, base: nat, x: nat) returns (x': nat)
    requires Apart(h, t, b, base, x) && x % 2 == 1 && Ones(x - 1) >= 2
    ensures Down(h, t) > t && Apart(Down(h, t), t, b, base, x')
    ensures Left(b, x', t <= base + 1) < Left(b, x, t <= base + 1)
  {
    hide GetSkipHeight, Cleared, Aligned, Ones, Left, Pow2;
    ClearedBelow(h, t, b, base, x, x - 1);
    EvenAbove(h, t, b, base, x);
    NoneIsZero();
    ClearedOnes(x - 1);
    var y := Cleared(x - 1);
    ClearedBelow(h, t, b, base, x, y);
    ClearedOnes(y);
    SkipIs(h);
    SkipIs(h - 1);
    x' := Cleared(y) + 1;
    LeftTwo(b, x, t <= base + 1);
  }

  /** Two bits less. */
  lemma LeftTwo(b: nat, x: nat, near: bool)
    requires b > 0 && x % 2 == 1 && Ones(x - 1) >= 2
    ensures Left(b, Cleared(Cleared(x - 1)) + 1, near) < Left(b, x, near)
  {
    hide Cleared, Ones, Square;
    NoneIsZero();
    ClearedOnes(x - 1);
    ClearedOnes(Cleared(x - 1));
  }

  lemma NoneIsZero()
    ensures Ones(0) == 0
  {
  }

  lemma EvenAbove(h: nat, t: nat, b: nat, base: nat, x: nat)
    requires Apart(h, t, b, base, x) && x > 0
    ensures h % 2 == x % 2 && b > 0 && h >= 3 && Pow2(b) >= 2
  {
    AlignedLess(base, b);
  }

  /** With one bit or none left, an odd height skips to the base or steps back. */
  lemma StepOddNear(h: nat, t: nat, b: nat, base: nat, x: nat) returns (b': nat, base': nat, x': nat)
    requires Apart(h, t, b, base, x) && x % 2 == 1 && Ones(x - 1) < 2
    ensures Down(h, t) > t ==>
      Apart(Down(h, t), t, b', base', x') && Left(b', x', t <= base' + 1) < Left(b, x, t <= base + 1)
  {
    hide GetSkipHeight, Cleared, Ones, Square, Aligned;
    b', base', x' := b, base, x;
    EvenAbove(h, t, b, base, x);
    NoOnes(x - 1);
    NoneIsZero();
    ClearedBelow(h, t, b, base, x, x - 1);
    ClearedBelow(h, t, b, base, x, 0);
    SkipIs(h);
    SkipIs(h - 1);
    if x > 1 {
      ClearedOnes(x - 1);
      NoOnes(Cleared(x - 1));
      assert GetSkipHeight(h) == base + 1;
    } else {
      if base > 0 { ClearedFar(base, b + 1); }
      NoClear();
    }
    if Down(h, t) == h - 1 {
      b', base', x' := b, base, x - 1;
    } else if Down(h, t) > t {
      assert GetSkipHeight(h) == base + 1 && t == base;
      JustAbove(base, b);
      b', base', x' := 0, base, 0;
    }
  }

  lemma JustAbove(base: nat, b: nat)
    requires Aligned(base, b + 1)
    ensures Apart(base + 1, base, 0, base, 0) && Left(0, 0, true) == 1
  {
  }

  lemma NoClear()
    ensures Cleared(0) == 0 && GetSkipHeight(0) == 0
  {
  }

  /** The lowest set bit of an even number is 2, 4 or a multiple of 8. */
  lemma LowBits(x: nat)
    requires x > 0
    ensures x % 4 == 2 ==> Cleared(x) == x - 2 && Ones(x - 2) == Ones(x) - 1
    ensures x % 8 == 4 ==> Cleared(x) == x - 4 && Ones(x - 2) == Ones(x)
    ensures x % 8 == 0 ==> Cleared(x) <= x - 8
  {
    hide Ones, LowestOne;
    var n := x / 8;
    Doubled(n);
    if x % 4 == 2 {
      var k := x / 4;
      assert x == 2 * (2 * k + 1) && x - 2 == 2 * (2 * k);
      Doubled(k);
      Doubled(2 * k + 1);
      Doubled(2 * k);
    } else if x % 8 == 4 {
      assert x == 2 * (2 * (2 * n + 1)) && x - 2 == 2 * (2 * (2 * n) + 1);
      Doubled(2 * n + 1);
      Doubled(2 * (2 * n + 1));
      Doubled(2 * n);
      Doubled(2 * (2 * n) + 1);
    } else if x % 8 == 0 {
      assert x == 2 * (2 * (2 * n));
      Doubled(2 * n);
      Doubled(2 * (2 * n));
    }
  }

  /** The link of the height below an even one with something left below bit b. */
  lemma PrevSkip(h: nat, t: nat, b: nat, base: nat, x: nat)
    requires Apart(h, t, b, base, x) && x % 2 == 0 && x > 0
    ensures x % 8 == 0 ==> GetSkipHeight(h - 1) == h - 7
    ensures x == 4 ==> GetSkipHeight(h - 1) == base + 1
  {
    hide GetSkipHeight, Cleared, Ones, Aligned, Pow2;
    EvenAbove(h, t, b, base, x);
    SkipIs(h - 1);
    if x % 8 == 0 {
      ClearedBelow(h, t, b, base, x, x - 2);
      ClearTwo(x / 8);
      ClearedBelow(h, t, b, base, x, x - 4);
    } else if x == 4 {
      ClearedBelow(h, t, b, base, x, 2);
      LowBits(2);
      ClearedBelow(h, t, b, base, x, 0);
    }
  }

  lemma ClearTwo(n: nat)
    requires n > 0
    ensures Cleared(8 * n - 2) == 8 * n - 4 && Cleared(8 * n - 4) == 8 * n - 8
  {
    hide LowestOne, Ones;
    var k := 2 * n - 1;
    assert 8 * n - 2 == 2 * (2 * k + 1) && 8 * n - 4 == 2 * (2 * (2 * (n - 1) + 1));
    Doubled(k);
    Doubled(2 * k + 1);
    Doubled(n - 1);
    Doubled(2 * (n - 1) + 1);
    Doubled(2 * (2 * (n - 1) + 1));
  }

  /** At an even height one bit is cleared, or the next odd height clears two. */
  lemma StepEven(h: nat, t: nat, b: nat, base: nat, x: nat) returns (x': nat)
    requires Apart(h, t, b, base, x) && x % 2 == 0 && x > 0
    ensures Down(h, t) > t && Apart(Down(h, t), t, b, base, x')
    ensures Left(b, x', t <= base + 1) < Left(b, x, t <= base + 1)
  {
    hide GetSkipHeight, Cleared, Ones, Aligned, Pow2, Left;
    EvenAbove(h, t, b, base, x);
    SkipIs(h);
    ClearedBelow(h, t, b, base, x, x);
    ClearedLess(x);
    PrevSkip(h, t, b, base, x);
    if FollowsSkip(h, t) {
      x' := Cleared(x);
      LeftSkip(b, x, t <= base + 1);
    } else {
      x' := x - 1;
      LeftBack(b, x, t <= base + 1);
    }
  }

  lemma ClearedLess(x: nat)
    requires x > 0
    ensures Cleared(x) < x && (x % 8 == 0 ==> Cleared(x) <= x - 8)
  {
    hide Ones;
    LowBits(x);
  }

  /** One bit less. */
  lemma LeftSkip(b: nat, x: nat, near: bool)
    requires b > 0 && x > 0 && x % 2 == 0
    ensures Left(b, Cleared(x), near) < Left(b, x, near)
  {
    hide Cleared, Ones, Square;
    ClearedOnes(x);
  }

  /** One step back pays off at once, or at the odd height below. */
  lemma LeftBack(b: nat, x: nat, near: bool)
    requires b > 0 && x > 0 && x % 2 == 0 && x % 8 != 0 && (x == 4 ==> near)
    ensures Left(b, x - 1, near) < Left(b, x, near)
  {
    hide Cleared, Ones, Square;
    LowBits(x);
    if x % 8 == 4 {
      ClearedOnes(x);
      NoOnes(x - 4);
    }
  }

  lemma StepDown(h: nat, t: nat, b: nat, base: nat, x: nat) returns (b': nat, base': nat, x': nat)
    requires Apart(h, t, b, base, x)
    ensures Down(h, t) > t ==>
      Apart(Down(h, t), t, b', base', x') && Left(b', x', t <= base' + 1) < Left(b, x, t <= base + 1)
  {
    hide Down, Left, Apart, Ones;
    b', base' := b, base;
    if x == 0 {
      b', base', x' := StepTop(h, t, b, base);
    } else if x % 2 == 0 {
      x' := StepEven(h, t, b, base, x);
    } else if Ones(x - 1) >= 2 {
      x' := StepOddFar(h, t, b, base, x);
    } else {
      b', base', x' := StepOddNear(h, t, b, base, x);
    }
  }

  lemma {:induction false} StepsLeft(h: nat, t: nat, b: nat, base: nat, x: nat)
    requires Apart(h, t, b, base, x)
    ensures Steps(h, t) <= Left(b, x, t <= base + 1)
    decreases h
  {
    hide Down, Left, Aligned;
    LeftBound(b, x, t <= base + 1);
    var b', base', x' := StepDown(h, t, b, base, x);
    if Down(h, t) > t { StepsLeft(Down(h, t), t, b', base', x'); }
  }

  /** From a height below 2^k every lower height is reached within k * k steps. */
  lemma FewSteps(h: nat, t: nat, k: nat)
    requires h < Pow2(k)
    ensures Steps(h, t) <= k * k
  {
    hide Apart, Left;
    if t < h {
      ZeroAligned(k);
      var b, base, x := Locate(h, t, k, 0);
      StepsLeft(h, t, b, base, x);
      BelowBit(h, t, b, base, x);
      LeftBound(b, x, t <= base + 1);
      SquareMono(b + 1, k);
    }
  }

  lemma {:induction false} ZeroAligned(k: nat)
    ensures Aligned(0, k)
  {
    if k > 0 { ZeroAligned(k - 1); }
  }

  lemma BelowBit(h: nat, t: nat, b: nat, base: nat, x: nat)
    requires Apart(h, t, b, base, x)
    ensures x < Pow2(b)
  {
  }
}
