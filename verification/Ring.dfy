/** Ring arithmetic: `IDX_IN_POW_OF_2_RING` of `muggle/c/base/macro.h` and what a window of cursors means. */
module Ring {

  function Pow2(k: nat): (p: nat)
    ensures p > 0
  {
    if k == 0 then 1 else 2 * Pow2(k - 1)
  }

  lemma {:induction false} PowSplit(a: nat, b: nat)
    ensures Pow2(a) * Pow2(b) == Pow2(a + b)
  {
    if a > 0 {
      PowSplit(a - 1, b);
    }
  }

  /** The sizes of machine words. */
  lemma PowWords()
    ensures Pow2(8) == 0x100 && Pow2(16) == 0x1_0000 && Pow2(32) == 0x1_0000_0000
    ensures Pow2(63) == 0x8000_0000_0000_0000 && Pow2(64) == 0x1_0000_0000_0000_0000
  {
    assert Pow2(4) == 16;
    PowSplit(4, 4);
    PowSplit(8, 8);
    PowSplit(16, 16);
    PowSplit(32, 32);
    assert Pow2(64) == 2 * Pow2(63);
  }

  /** Bitwise and of two unsigned numbers, digit by digit. */
  function And(a: nat, b: nat): nat {
    if a == 0 || b == 0 then 0 else (if a % 2 == 1 && b % 2 == 1 then 1 else 0) + 2 * And(a / 2, b / 2)
  }

  /** `IDX_IN_POW_OF_2_RING(idx, capacity)`. */
  function Mask(idx: nat, capacity: nat): nat
    requires capacity > 0
  {
    And(idx, capacity - 1)
  }

  lemma AndOdd(a: nat, b: nat)
    ensures And(a, 2 * b + 1) == a % 2 + 2 * And(a / 2, b)
  {
    assert (2 * b + 1) / 2 == b && (2 * b + 1) % 2 == 1;
  }

  /** Masking with a power of two minus one is the remainder. */
  lemma {:induction false} MaskIsMod(idx: nat, k: nat)
    ensures Mask(idx, Pow2(k)) == Slot(idx, Pow2(k))
  {
    if k > 0 {
      var p := Pow2(k - 1);
      assert Pow2(k) == 2 * p;
      hide And, Pow2;
      MaskIsMod(idx / 2, k - 1);
      AndOdd(idx, p - 1);
      ModTwice(idx, p);
    }
  }

  lemma ModTwice(x: nat, p: nat)
    requires p > 0
    ensures x % (2 * p) == x % 2 + 2 * ((x / 2) % p)
  {
    var q, r := x / 2 / p, (x / 2) % p;
    assert x / 2 == q * p + r;
    assert x == q * (2 * p) + (x % 2 + 2 * r);
    ModUnique(x, 2 * p, q, x % 2 + 2 * r);
  }

  lemma MulSign(d: int, n: int)
    requires n > 0
    ensures d >= 1 ==> d * n >= n
    ensures d <= -1 ==> d * n <= -n
    ensures d == 0 ==> d * n == 0
  {
    assert (d - 1) * n == d * n - n && (d + 1) * n == d * n + n;
    if d >= 1 {
      assert (d - 1) * n >= 0;
    } else if d <= -1 {
      assert (d + 1) * n <= 0;
    }
  }

  /** Quotient and remainder are determined. */
  lemma ModUnique(x: int, n: int, q: int, r: int)
    requires n > 0 && x == q * n + r && 0 <= r < n
    ensures x % n == r && x / n == q
  {
    var q', r' := x / n, x % n;
    assert x == n * q' + r' && 0 <= r' < n;
    assert (q' - q) * n == r - r';
    MulSign(q' - q, n);
  }

  /** The powers of two up to 2^32 divide it. */
  lemma PowDividesWord(k: nat)
    requires k <= 32
    ensures Pow2(k) <= 0x1_0000_0000 && 0x1_0000_0000 % Pow2(k) == 0
  {
    hide Pow2;
    PowSplit(k, 32 - k);
    PowWords();
    MulSign(Pow2(32 - k), Pow2(k));
    ModUnique(0x1_0000_0000, Pow2(k), Pow2(32 - k), 0);
  }

  /** The slot of a cursor in a ring of `n`. */
  function Slot(i: int, n: nat): (r: nat)
    requires n > 0
    ensures r < n
  {
    i % n
  }

  /** Cursors less than `n` apart fall on different slots. */
  lemma SlotApart(a: int, b: int, n: nat)
    requires n > 0 && a < b < a + n
    ensures Slot(a, n) != Slot(b, n)
  {
    var d := b / n - a / n;
    assert a == n * (a / n) + a % n && b == n * (b / n) + b % n;
    assert b - a == d * n + (b % n - a % n);
    MulSign(d, n);
  }

  /** Cursors of the first turn are their own slots. */
  lemma SlotBelow(i: nat, n: nat)
    requires n > 0
    ensures Slot(i, n) <= i && (Slot(i, n) == i <==> i < n)
  {
  }

  /** A whole turn comes back to the same slot. */
  lemma SlotTurn(a: int, n: nat)
    requires n > 0
    ensures Slot(a + n, n) == Slot(a, n)
  {
    assert a == n * (a / n) + a % n;
    ModUnique(a + n, n, a / n + 1, a % n);
  }

  /** Two cursors fall on one slot exactly if they are whole turns apart. */
  lemma {:induction false} SlotsMeet(a: nat, b: nat, n: nat)
    requires n > 0 && a <= b
    ensures Slot(a, n) == Slot(b, n) <==> (b - a) % n == 0
    decreases b
  {
    if b < a + n {
      SlotBelow(b - a, n);
      if a < b {
        SlotApart(a, b, n);
      }
    } else {
      SlotsMeet(a, b - n, n);
      SlotTurn(b - n, n);
      SlotTurn(b - n - a, n);
    }
  }

  /** Wrapping a cursor at a multiple of the capacity does not move its slot. */
  lemma SlotWrap(a: int, n: nat, m: nat)
    requires n > 0 && m > 0
    ensures n * m > 0 && Slot(a % (n * m), n) == Slot(a, n)
  {
    MulSign(m, n);
    var q, r := a / (n * m), a % (n * m);
    assert a == (n * m) * q + r && r == n * (r / n) + r % n;
    assert a == (m * q + r / n) * n + r % n by {
      assert (m * q + r / n) * n == (m * q) * n + (r / n) * n;
      assert (m * q) * n == (n * m) * q;
    }
    ModUnique(a, n, m * q + r / n, r % n);
  }

  /** What the slots hold from cursor `lo` up to cursor `hi`. */
  function Window<T>(slots: seq<T>, lo: nat, hi: nat): (w: seq<T>)
    requires lo <= hi && |slots| > 0
    ensures |w| == hi - lo
  {
    seq(hi - lo, i requires 0 <= i < hi - lo => slots[Slot(lo + i, |slots|)])
  }

  /** Writing the slot after a window that is not full extends the window. */
  lemma WindowPush<T>(slots: seq<T>, lo: nat, hi: nat, x: T)
    requires |slots| > 0 && lo <= hi < lo + |slots|
    ensures Window(slots[Slot(hi, |slots|) := x], lo, hi) == Window(slots, lo, hi)
    ensures Window(slots[Slot(hi, |slots|) := x], lo, hi + 1) == Window(slots, lo, hi) + [x]
  {
    hide Slot;
    forall j | lo <= j < hi ensures Slot(j, |slots|) != Slot(hi, |slots|) {
      SlotApart(j, hi, |slots|);
    }
  }

  lemma WindowPop<T>(slots: seq<T>, lo: nat, hi: nat)
    requires |slots| > 0 && lo < hi
    ensures Window(slots, lo, hi) == [slots[Slot(lo, |slots|)]] + Window(slots, lo + 1, hi)
  {
    hide Slot;
  }

  /** The next index of a ring kept in `0..capacity`. */
  function Bump(i: nat, capacity: nat): nat { if i + 1 == capacity then 0 else i + 1 }

  lemma BumpSlot(i: nat, n: nat)
    requires n > 0
    ensures Bump(Slot(i, n), n) == Slot(i + 1, n)
  {
    assert i == n * (i / n) + i % n;
    if Slot(i, n) + 1 == n {
      ModUnique(i + 1, n, i / n + 1, 0);
    } else {
      ModUnique(i + 1, n, i / n, i % n + 1);
    }
  }

  lemma WrapSplit(i: nat, n: nat)
    requires n > 0 && i < 2 * n
    ensures Slot(i, n) == if i < n then i else i - n
  {
    if i < n {
      ModUnique(i, n, 0, i);
    } else {
      ModUnique(i, n, 1, i - n);
    }
  }

  /** A window may be read one turn later. */
  lemma WindowTurn<T>(slots: seq<T>, lo: nat, hi: nat)
    requires |slots| > 0 && lo <= hi
    ensures Window(slots, lo + |slots|, hi + |slots|) == Window(slots, lo, hi)
  {
    hide Slot;
    forall j | lo <= j < hi ensures Slot(j + |slots|, |slots|) == Slot(j, |slots|) {
      SlotTurn(j, |slots|);
    }
    var a, b := Window(slots, lo + |slots|, hi + |slots|), Window(slots, lo, hi);
    forall i | 0 <= i < hi - lo ensures a[i] == b[i] {
      SlotTurn(lo + i, |slots|);
      assert lo + |slots| + i == lo + i + |slots|;
    }
  }

  lemma WindowGrow<T>(slots: seq<T>, lo: nat, hi: nat)
    requires |slots| > 0 && lo <= hi
    ensures Window(slots, lo, hi + 1) == Window(slots, lo, hi) + [slots[Slot(hi, |slots|)]]
  {
  }
}
