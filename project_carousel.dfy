/** The project carousel (src/components/ProjectCarousel.tsx): the index of the shown project. */
module ProjectCarousel {

  /**
   * JavaScript's `a % n` for `n > 0`: `a` minus a multiple of `n`, with the
   * sign of `a` and a magnitude below `n` (truncating division).
   */
  function JsRem(a: int, n: int): (r: int)
    requires n > 0
    ensures (a - r) % n == 0
    ensures a >= 0 ==> 0 <= r < n
    ensures a < 0 ==> -n < r <= 0
  {
    if a >= 0 then
      DropRemainder(a, n);
      a % n
    else
      DropRemainder(-a, n);
      assert a + (-a) % n == -((-a) - (-a) % n);
      NegatedMultiple((-a) - (-a) % n, n);
      -((-a) % n)
  }

  /** The contract of `JsRem` has one solution: any `r` meeting it is `JsRem(a, n)`. */
  lemma JsRemUnique(a: int, n: int, r: int)
    requires n > 0 && (a - r) % n == 0
    requires a >= 0 ==> 0 <= r < n
    requires a < 0 ==> -n < r <= 0
    ensures r == JsRem(a, n)
  {
    var r0 := JsRem(a, n);
    var p := (a - r) / n;
    var p0 := (a - r0) / n;
    assert a - r == n * p;
    assert a - r0 == n * p0;
    assert r0 - r == n * (p - p0);
    SmallMultipleIsZero(p - p0, n);
  }

  /** The only multiple of `n` strictly between `-n` and `n` is 0. */
  lemma SmallMultipleIsZero(d: int, n: int)
    requires n > 0 && -n < n * d < n
    ensures d == 0
  {
    if d >= 1 {
      NonNegativeProduct(n, d - 1);
    } else if d <= -1 {
      NonNegativeProduct(n, -d - 1);
    }
  }

  lemma NonNegativeProduct(x: int, y: int)
    requires x >= 0 && y >= 0
    ensures x * y >= 0
  {
  }

  /** Removing the remainder leaves a multiple of `n`. */
  lemma DropRemainder(m: int, n: int)
    requires n > 0
    ensures (m - m % n) % n == 0
  {
    assert m - m % n == n * (m / n);
    MultipleMod(m / n, n);
  }

  /** The negation of a multiple of `n` is one too. */
  lemma NegatedMultiple(m: int, n: int)
    requires n > 0 && m % n == 0
    ensures (-m) % n == 0
  {
    assert m == n * (m / n);
    assert -m == n * -(m / n);
    MultipleMod(-(m / n), n);
  }

  lemma MultipleMod(q: int, n: int)
    requires n > 0
    ensures (n * q) % n == 0
  {
    var x := n * q;
    var k := q - x / n;
    assert x == n * (x / n) + x % n;
    assert n * k == n * q - n * (x / n);
    assert n * k == x % n;
  }

  /** `goTo(index)`'s new index: `(index + projects.length) % projects.length`. */
  function GoToIndex(index: int, n: int): (r: int)
    requires n > 0
    ensures -n <= index ==> 0 <= r < n
    ensures 0 <= index < n ==> r == index
  {
    JsRem(index + n, n)
  }

  /** The "next" button from any index in range stays in range, wrapping from the last to 0. */
  lemma NextIndex(current: int, n: int)
    requires 0 <= current < n
    ensures 0 <= GoToIndex(current + 1, n) < n
    ensures GoToIndex(current + 1, n) == if current == n - 1 then 0 else current + 1
  {
  }

  /** The "previous" button from any index in range stays in range, wrapping from 0 to the last. */
  lemma PrevIndex(current: int, n: int)
    requires 0 <= current < n
    ensures 0 <= GoToIndex(current - 1, n) < n
    ensures GoToIndex(current - 1, n) == if current == 0 then n - 1 else current - 1
  {
  }

  /** Next then previous, or previous then next, comes back to the same project. */
  lemma NextPrevRoundTrip(current: int, n: int)
    requires 0 <= current < n
    ensures GoToIndex(GoToIndex(current + 1, n) - 1, n) == current
    ensures GoToIndex(GoToIndex(current - 1, n) + 1, n) == current
  {
    NextIndex(current, n);
    PrevIndex(current, n);
    PrevIndex(GoToIndex(current + 1, n), n);
    NextIndex(GoToIndex(current - 1, n), n);
  }

  /** `aria-pressed` of the dot at `index`. */
  predicate DotPressed(current: int, index: int) {
    current == index
  }

  /** Exactly one dot is pressed: the one of the shown project. */
  lemma ExactlyOneDotPressed(current: int, n: int)
    requires 0 <= current < n
    ensures (set i | 0 <= i < n && DotPressed(current, i)) == {current}
  {
  }

  /** The component's `current` state over `projects`, of which there is at least one. */
  class Carousel {
    const count: int
    var current: int

    ghost predicate Valid()
      reads this
    {
      count > 0 && 0 <= current < count
    }

    /** `useState(0)`: the first project is shown. The component indexes `projects[current]`, so it needs one. */
    constructor (count: int)
      requires count > 0
      ensures Valid() && this.count == count && current == 0
    {
      this.count := count;
      current := 0;
    }

    /** `goTo(index)`. */
    method GoTo(index: int)
      requires count > 0
      modifies this
      ensures current == GoToIndex(index, count)
      ensures -count <= index ==> Valid()
    {
      current := JsRem(index + count, count);
    }

    /** The "previous" button: `goTo(current - 1)`. */
    method Prev()
      requires Valid()
      modifies this
      ensures Valid()
      ensures current == if old(current) == 0 then count - 1 else old(current) - 1
    {
      PrevIndex(current, count);
      GoTo(current - 1);
    }

    /** The "next" button: `goTo(current + 1)`. */
    method Next()
      requires Valid()
      modifies this
      ensures Valid()
      ensures current == if old(current) == count - 1 then 0 else old(current) + 1
    {
      NextIndex(current, count);
      GoTo(current + 1);
    }

    /** The dot of project `index`: `goTo(index)`. */
    method Select(index: int)
      requires Valid() && 0 <= index < count
      modifies this
      ensures Valid() && current == index
    {
      GoTo(index);
    }
  }
}
