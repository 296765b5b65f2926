/** The stand-alone image carousel: an index into a fixed list of images, moved forward
    and back with wrap-around, and a display loop that shows exactly the image at the
    index. */
module SimpleCarousel {
  /** A JavaScript number as this script can produce it: an integer, or `NaN` once a
      remainder by zero has been taken (no images). */
  datatype JsNumber = Num(value: int) | NaN

  /** `a + k`; `NaN` absorbs. */
  function Plus(a: JsNumber, k: int): (r: JsNumber)
    ensures r.NaN? <==> a.NaN?
  {
    match a
    case Num(v) => Num(v + k)
    case NaN => NaN
  }

  /** JavaScript `a % n`: truncates toward zero, so the result takes the sign of `a`;
      a remainder by zero is `NaN`. */
  function JsRem(a: JsNumber, n: int): (r: JsNumber)
    ensures r.NaN? <==> a.NaN? || n == 0
    ensures a.Num? && a.value >= 0 && n > 0 ==> r == Num(a.value % n)
    ensures r.Num? ==> -(if n < 0 then -n else n) < r.value < (if n < 0 then -n else n)
  {
    if a.NaN? || n == 0 then NaN
    else
      var m := if n < 0 then -n else n;
      if a.value >= 0 then Num(a.value % m) else Num(-((-a.value) % m))
  }

  /** `(currentIndex + 1) % carouselImages.length` */
  function NextIndex(i: JsNumber, n: nat): JsNumber {
    JsRem(Plus(i, 1), n)
  }

  /** `(currentIndex - 1 + carouselImages.length) % carouselImages.length` */
  function PrevIndex(i: JsNumber, n: nat): JsNumber {
    JsRem(Plus(Plus(i, -1), n), n)
  }

  predicate InRange(i: JsNumber, n: nat) {
    i.Num? && 0 <= i.value < n
  }

  /** With at least one image, stepping forward moves to the next image and wraps from
      the last to the first. */
  lemma NextStep(i: nat, n: nat)
    requires i < n
    ensures NextIndex(Num(i), n) == if i + 1 == n then Num(0) else Num(i + 1)
  {
  }

  /** With at least one image, stepping back moves to the previous image and wraps from
      the first to the last. */
  lemma PrevStep(i: nat, n: nat)
    requires i < n
    ensures PrevIndex(Num(i), n) == if i == 0 then Num(n - 1) else Num(i - 1)
  {
    if i > 0 {
      DivModUnique(i - 1 + n, n, 1, i - 1);
    }
  }

  /** Forward is `(i + 1) mod n` and back is `(i - 1 + n) mod n`, and both stay within
      the images. */
  lemma StepsInRange(i: nat, n: nat)
    requires i < n
    ensures NextIndex(Num(i), n) == Num((i + 1) % n) && InRange(NextIndex(Num(i), n), n)
    ensures PrevIndex(Num(i), n) == Num((i - 1 + n) % n) && InRange(PrevIndex(Num(i), n), n)
  {
  }

  /** Back undoes forward. */
  lemma PrevAfterNext(i: nat, n: nat)
    requires i < n
    ensures PrevIndex(NextIndex(Num(i), n), n) == Num(i)
  {
    NextStep(i, n);
    if i + 1 == n {
      PrevStep(0, n);
    } else {
      PrevStep(i + 1, n);
    }
  }

  /** Forward undoes back. */
  lemma NextAfterPrev(i: nat, n: nat)
    requires i < n
    ensures NextIndex(PrevIndex(Num(i), n), n) == Num(i)
  {
    PrevStep(i, n);
    if i == 0 {
      NextStep(n - 1, n);
    } else {
      NextStep(i - 1, n);
    }
  }

  /** With no images the index becomes `NaN` at the first step and stays there. */
  lemma NoImagesNaN(i: JsNumber)
    ensures NextIndex(i, 0) == NaN && PrevIndex(i, 0) == NaN
  {
  }

  /** The index after `k` forward steps from the initial 0. */
  function AfterNexts(k: nat, n: nat): JsNumber {
    if k == 0 then Num(0) else NextIndex(AfterNexts(k - 1, n), n)
  }

  /** `k` forward steps from the start land on `k mod n`. */
  lemma {:induction false} AfterNextsIsMod(k: nat, n: nat)
    requires n > 0
    ensures AfterNexts(k, n) == Num(k % n)
  {
    if k > 0 {
      AfterNextsIsMod(k - 1, n);
      NextStep((k - 1) % n, n);
      ModSucc(k - 1, n);
    }
  }

  /** Stepping a remainder forward by one is the remainder of the successor. */
  lemma ModSucc(k: nat, n: nat)
    requires n > 0
    ensures (if k % n + 1 == n then 0 else k % n + 1) == (k + 1) % n
  {
    var q, r := k / n, k % n;
    assert k == q * n + r;
    if r + 1 < n {
      DivModUnique(k + 1, n, q, r + 1);
    } else {
      assert (q + 1) * n == q * n + n;
      DivModUnique(k + 1, n, q + 1, 0);
    }
  }

  /** Euclidean division has one quotient and one remainder. */
  lemma DivModUnique(a: int, n: int, q: int, r: int)
    requires n > 0 && 0 <= r < n && a == q * n + r
    ensures a % n == r
  {
    var q', r' := a / n, a % n;
    assert a == q' * n + r';
    assert (q - q') * n == r' - r;
    if q > q' {
      MulAtLeast(q - q', n);
    } else if q < q' {
      MulAtLeast(q' - q, n);
    }
  }

  lemma MulAtLeast(d: int, n: int)
    requires d >= 1 && n > 0
    ensures d * n >= n
  {
    assert d * n == (d - 1) * n + n;
  }

  /** The carousel: `display` holds each image's `style.display`, in document order. */
  class Carousel {
    const display: array<string>
    var currentIndex: JsNumber

    /** Exactly the image at `index` is shown; every other image is hidden. */
    ghost predicate ShowsOnly(index: JsNumber)
      reads this, display
    {
      forall k :: 0 <= k < display.Length ==> display[k] == if index == Num(k) then "block" else "none"
    }

    ghost predicate Valid()
      reads this, display
    {
      (display.Length > 0 ==> InRange(currentIndex, display.Length)) && ShowsOnly(currentIndex)
    }

    /** The `DOMContentLoaded` setup: the index starts at 0 and the first image is shown. */
    constructor (initial: seq<string>)
      ensures fresh(display) && display.Length == |initial|
      ensures currentIndex == Num(0) && Valid()
    {
      display := new string[|initial|](i requires 0 <= i < |initial| => initial[i]);
      currentIndex := Num(0);
      new;
      ShowImage(currentIndex);
    }

    /** `showImage(index)`: one pass over the images, setting each one's display. */
    method ShowImage(index: JsNumber)
      modifies display
      ensures ShowsOnly(index)
    {
      for i := 0 to display.Length
        invariant forall k :: 0 <= k < i ==> display[k] == if index == Num(k) then "block" else "none"
      {
        display[i] := if index == Num(i) then "block" else "none";
      }
    }

    method NextImage()
      requires Valid()
      modifies this, display
      ensures currentIndex == NextIndex(old(currentIndex), display.Length)
      ensures Valid()
    {
      if display.Length > 0 {
        StepsInRange(currentIndex.value, display.Length);
      }
      currentIndex := NextIndex(currentIndex, display.Length);
      ShowImage(currentIndex);
    }

    method PrevImage()
      requires Valid()
      modifies this, display
      ensures currentIndex == PrevIndex(old(currentIndex), display.Length)
      ensures Valid()
    {
      if display.Length > 0 {
        StepsInRange(currentIndex.value, display.Length);
      }
      currentIndex := PrevIndex(currentIndex, display.Length);
      ShowImage(currentIndex);
    }
  }
}
