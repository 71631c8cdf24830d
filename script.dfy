/**
 * The index state machines of the page script (script.js): the gallery
 * carousel (current slide, next / previous with wrap-around, indicator
 * clicks, arrow keys, touch swipes, and the single "active" flag on slides
 * and indicators) and the section navigation (click to select, arrow keys
 * to move the selection with wrap-around).
 */
module Script {

  /** A positive multiple of n is at least n. */
  lemma {:induction false} MulAtLeast(e: int, n: int)
    requires e >= 1 && n > 0
    ensures e * n >= n
    decreases e
  {
    if e > 1 {
      MulAtLeast(e - 1, n);
      assert e * n == (e - 1) * n + n;
    }
  }

  /** Dafny's `%`: the remainder is the unique value in [0, n) that differs from a by a multiple of n. */
  lemma ModOfSmall(a: int, n: int, q: int)
    requires n > 0 && 0 <= a - q * n < n
    ensures a % n == a - q * n
  {
    var d, r := a / n, a % n;
    var e := d - q;
    assert a == d * n + r;
    assert e * n == (a - q * n) - r;
    if e >= 1 {
      MulAtLeast(e, n);
      assert false;
    } else if e <= -1 {
      MulAtLeast(-e, n);
      assert false;
    }
  }

  /** Adding n does not change the remainder modulo n. */
  lemma ModAddN(x: int, n: int)
    requires x >= 0 && n > 0
    ensures (x + n) % n == x % n
  {
    var q, r := x / n, x % n;
    assert x == q * n + r;
    assert (q + 1) * n == q * n + n;
    ModOfSmall(x + n, n, q + 1);
  }

  /**
   * JavaScript's `%` on integers with a positive divisor: the remainder
   * truncates toward zero, so it takes the sign of the dividend (-1 % 3 is
   * -1, not 2). A zero remainder of a negative dividend is -0, which is the
   * number 0 and indexes element 0.
   */
  function JsRem(a: int, n: int): (r: int)
    requires n > 0
    ensures -n < r < n
    ensures a >= 0 ==> r >= 0
    ensures a <= 0 ==> r <= 0
    ensures (a - r) % n == 0
  {
    if a >= 0 then
      ModOfSmall(a - a % n, n, a / n);
      a % n
    else
      ModOfSmall(a + (-a) % n, n, -((-a) / n));
      -((-a) % n)
  }

  // ---------------------------------------------------------------------
  // Slide index arithmetic (nextSlide, prevSlide)
  // ---------------------------------------------------------------------

  function NextIndex(i: int, n: int): int
    requires n > 0
  {
    JsRem(i + 1, n)
  }

  function PrevIndex(i: int, n: int): int
    requires n > 0
  {
    JsRem(i - 1 + n, n)
  }

  /** From an index in range, next and previous stay in range and wrap at the ends. */
  lemma StepsWrap(i: int, n: int)
    requires 0 <= i < n
    ensures NextIndex(i, n) == if i == n - 1 then 0 else i + 1
    ensures PrevIndex(i, n) == if i == 0 then n - 1 else i - 1
    ensures 0 <= NextIndex(i, n) < n && 0 <= PrevIndex(i, n) < n
  {
    if i < n - 1 { ModOfSmall(i + 1, n, 0); } else { ModOfSmall(i + 1, n, 1); }
    if 0 < i { ModOfSmall(i - 1 + n, n, 1); } else { ModOfSmall(i - 1 + n, n, 0); }
  }

  /** prevSlide undoes nextSlide and nextSlide undoes prevSlide. */
  lemma StepsUndo(i: int, n: int)
    requires 0 <= i < n
    ensures PrevIndex(NextIndex(i, n), n) == i
    ensures NextIndex(PrevIndex(i, n), n) == i
  {
    StepsWrap(i, n);
    StepsWrap(NextIndex(i, n), n);
    StepsWrap(PrevIndex(i, n), n);
  }

  /** The index after k consecutive nextSlide calls. */
  function NextTimes(i: int, n: int, k: nat): int
    requires n > 0
    decreases k
  {
    if k == 0 then i else NextTimes(NextIndex(i, n), n, k - 1)
  }

  /** k nextSlide calls advance the index by k modulo n. */
  lemma {:induction false} NextTimesAdvances(i: int, n: int, k: nat)
    requires 0 <= i < n
    ensures NextTimes(i, n, k) == (i + k) % n
    decreases k
  {
    if k > 0 {
      StepsWrap(i, n);
      NextTimesAdvances(NextIndex(i, n), n, k - 1);
      if i == n - 1 {
        ModAddN(k - 1, n);
      }
    }
  }

  /** n consecutive nextSlide calls return to the starting slide. */
  lemma FullCycle(i: int, n: int)
    requires 0 <= i < n
    ensures NextTimes(i, n, n) == i
  {
    NextTimesAdvances(i, n, n);
    ModOfSmall(i + n, n, 1);
  }

  // ---------------------------------------------------------------------
  // Touch swipe (touchend handler)
  // ---------------------------------------------------------------------

  /** Horizontal travel, in pixels, a swipe must exceed to change slide. */
  const SwipeThreshold: real := 50.0

  datatype Swipe = SwipeNext | SwipePrev | NoSwipe

  function Abs(x: real): real { if x < 0.0 then -x else x }

  /** The slide change a touch that started at startX and ended at endX asks for. */
  function SwipeOf(startX: real, endX: real): (s: Swipe)
    ensures s == SwipeNext <==> startX - endX > SwipeThreshold
    ensures s == SwipePrev <==> startX - endX < -SwipeThreshold
    ensures s == NoSwipe <==> -SwipeThreshold <= startX - endX <= SwipeThreshold
  {
    var diff := startX - endX;
    if Abs(diff) > SwipeThreshold then
      if diff > 0.0 then SwipeNext else SwipePrev
    else NoSwipe
  }

  // ---------------------------------------------------------------------
  // Section navigation keys (document keydown handler)
  // ---------------------------------------------------------------------

  /** What an arrow key does to the navigation. */
  datatype NavStep =
    | Unhandled            // not ArrowDown / ArrowUp: nothing happens
    | Select(index: int)   // the item at `index` is clicked
    | Thrown               // no nav items: allNavItems[NaN].click() throws a TypeError

  /** The target of a key press, given the index of the active item (-1 if none) among n items. */
  function NavKeyTarget(key: string, current: int, n: nat): NavStep
    requires -1 <= current < n
  {
    if key == "ArrowDown" || key == "ArrowUp" then
      if n == 0 then Thrown
      else if key == "ArrowDown" then Select(JsRem(current + 1, n))
      else Select(JsRem(current - 1 + n, n))
    else Unhandled
  }

  /**
   * ArrowDown moves to the next item and ArrowUp to the previous one, both
   * wrapping around; with no item active ArrowDown selects the first item
   * and ArrowUp the next-to-last one (the only one, when there is a single
   * item). Other keys do nothing, and with no items an arrow key throws.
   */
  lemma NavKeys(key: string, current: int, n: nat)
    requires -1 <= current < n
    ensures var r := NavKeyTarget(key, current, n);
      && (key != "ArrowDown" && key != "ArrowUp" ==> r == Unhandled)
      && (n == 0 && (key == "ArrowDown" || key == "ArrowUp") ==> r == Thrown)
      && (r.Select? ==> 0 <= r.index < n)
      && (n > 0 && key == "ArrowDown" ==>
            r == Select(if current == n - 1 then 0 else current + 1))
      && (n > 0 && key == "ArrowUp" && current >= 0 ==>
            r == Select(if current == 0 then n - 1 else current - 1))
      && (n > 0 && key == "ArrowUp" && current == -1 ==>
            r == Select(if n == 1 then 0 else n - 2))
  {
    if n > 0 {
      if current >= 0 {
        StepsWrap(current, n);
      } else {
        ModOfSmall(0, n, 0);
        if n > 1 { ModOfSmall(n - 2, n, 0); } else { ModOfSmall(1, 1, 1); }
      }
    }
  }

  /** indexOf(querySelector('.nav-item.active')): the first active item, or -1. */
  function FirstActive(flags: seq<bool>): (i: int)
    ensures -1 <= i < |flags|
    ensures i == -1 <==> forall j :: 0 <= j < |flags| ==> !flags[j]
    ensures i >= 0 ==> flags[i] && forall j :: 0 <= j < i ==> !flags[j]
    decreases |flags|
  {
    if flags == [] then -1
    else if flags[0] then 0
    else
      var rest := FirstActive(flags[1..]);
      if rest == -1 then -1 else rest + 1
  }

  // ---------------------------------------------------------------------
  // The carousel
  // ---------------------------------------------------------------------

  class Carousel {
    /** carouselSlides.length; the carousel is only set up when it is positive. */
    const n: nat
    /** The "active" class of each slide and of each indicator. */
    const slides: array<bool>
    const indicators: array<bool>
    var currentIndex: int
    var startX: real
    var isDragging: bool

    /** The slide and indicator arrays fit the carousel and the index is in range. */
    ghost predicate Shape()
      reads this
    {
      n > 0 && slides.Length == n && indicators.Length == n && slides != indicators
      && 0 <= currentIndex < n
    }

    /** Exactly the slide and the indicator at currentIndex are active. */
    ghost predicate Valid()
      reads this, slides, indicators
    {
      Shape()
      && (forall j :: 0 <= j < n ==> (slides[j] <==> j == currentIndex))
      && (forall j :: 0 <= j < n ==> (indicators[j] <==> j == currentIndex))
    }

    /** Setting up the carousel: indicators are created with the first one
        active, the index starts at 0, and updateCarousel runs once. */
    constructor (count: nat, initialSlides: seq<bool>)
      requires count > 0 && |initialSlides| == count
      ensures Valid() && fresh(slides) && fresh(indicators)
      ensures n == count && currentIndex == 0 && startX == 0.0 && !isDragging
    {
      n := count;
      currentIndex := 0;
      startX := 0.0;
      isDragging := false;
      slides := new bool[count](j requires 0 <= j < count => initialSlides[j]);
      indicators := new bool[count](j => j == 0);
      new;
      UpdateCarousel();
    }

    /** updateCarousel: clear every slide's and indicator's flag, then set the current one's. */
    method UpdateCarousel()
      requires Shape()
      modifies slides, indicators
      ensures Valid()
    {
      var j := 0;
      while j < n
        invariant 0 <= j <= n
        invariant forall k :: 0 <= k < j ==> (slides[k] <==> k == currentIndex)
      {
        slides[j] := false;
        if j == currentIndex {
          slides[j] := true;
        }
        j := j + 1;
      }
      j := 0;
      while j < n
        invariant 0 <= j <= n
        invariant forall k :: 0 <= k < j ==> (indicators[k] <==> k == currentIndex)
        invariant forall k :: 0 <= k < n ==> (slides[k] <==> k == currentIndex)
      {
        indicators[j] := false;
        if j == currentIndex {
          indicators[j] := true;
        }
        j := j + 1;
      }
    }

    /** goToSlide, reached by clicking indicator `index`. */
    method GoToSlide(index: int)
      requires Valid() && 0 <= index < n
      modifies this, slides, indicators
      ensures Valid()
      ensures currentIndex == index
      ensures startX == old(startX) && isDragging == old(isDragging)
    {
      currentIndex := index;
      UpdateCarousel();
    }

    method NextSlide()
      requires Valid()
      modifies this, slides, indicators
      ensures Valid()
      ensures currentIndex == NextIndex(old(currentIndex), n)
      ensures startX == old(startX) && isDragging == old(isDragging)
    {
      StepsWrap(currentIndex, n);
      currentIndex := JsRem(currentIndex + 1, n);
      UpdateCarousel();
    }

    method PrevSlide()
      requires Valid()
      modifies this, slides, indicators
      ensures Valid()
      ensures currentIndex == PrevIndex(old(currentIndex), n)
      ensures startX == old(startX) && isDragging == old(isDragging)
    {
      StepsWrap(currentIndex, n);
      currentIndex := JsRem(currentIndex - 1 + n, n);
      UpdateCarousel();
    }

    /** The carousel's keydown handler: ArrowLeft / ArrowRight change slide
        while the gallery section is the active one. */
    method KeyDown(key: string, galleryActive: bool)
      requires Valid()
      modifies this, slides, indicators
      ensures Valid()
      ensures currentIndex ==
        if galleryActive && key == "ArrowLeft" then PrevIndex(old(currentIndex), n)
        else if galleryActive && key == "ArrowRight" then NextIndex(old(currentIndex), n)
        else old(currentIndex)
      ensures startX == old(startX) && isDragging == old(isDragging)
    {
      if galleryActive {
        if key == "ArrowLeft" {
          PrevSlide();
        }
        if key == "ArrowRight" {
          NextSlide();
        }
      }
    }

    /** touchstart: remember where the touch began and start dragging. */
    method TouchStart(x: real)
      requires Valid()
      modifies this
      ensures Valid()
      ensures startX == x && isDragging && currentIndex == old(currentIndex)
    {
      startX := x;
      isDragging := true;
    }

    /** touchend: while dragging, a swipe beyond the threshold changes slide
        and dragging stops; when not dragging nothing changes. */
    method TouchEnd(endX: real)
      requires Valid()
      modifies this, slides, indicators
      ensures Valid()
      ensures !old(isDragging) ==> currentIndex == old(currentIndex) && !isDragging
      ensures !old(isDragging) ==> unchanged(slides, indicators)
      ensures old(isDragging) ==> !isDragging
      ensures old(isDragging) ==>
        currentIndex ==
        match SwipeOf(old(startX), endX)
        case SwipeNext => NextIndex(old(currentIndex), n)
        case SwipePrev => PrevIndex(old(currentIndex), n)
        case NoSwipe => old(currentIndex)
      ensures startX == old(startX)
    {
      if !isDragging {
        return;
      }
      var diff := startX - endX;
      if Abs(diff) > SwipeThreshold {
        if diff > 0.0 {
          NextSlide();
        } else {
          PrevSlide();
        }
      }
      isDragging := false;
    }
  }

  // ---------------------------------------------------------------------
  // Section navigation
  // ---------------------------------------------------------------------

  class NavMenu {
    /** The "active" class of each navigation item, in document order. */
    const items: array<bool>

    constructor (initial: seq<bool>)
      ensures fresh(items) && items[..] == initial
    {
      items := new bool[|initial|](j requires 0 <= j < |initial| => initial[j]);
    }

    /** A click on item i: every item loses "active", then item i gains it. */
    method Click(i: int)
      requires 0 <= i < items.Length
      modifies items
      ensures forall j :: 0 <= j < items.Length ==> (items[j] <==> j == i)
    {
      var j := 0;
      while j < items.Length
        invariant 0 <= j <= items.Length
        invariant forall k :: 0 <= k < j ==> !items[k]
      {
        items[j] := false;
        j := j + 1;
      }
      items[i] := true;
    }

    /** The document keydown handler for ArrowDown / ArrowUp. */
    method KeyDown(key: string) returns (step: NavStep)
      modifies items
      ensures step == NavKeyTarget(key, FirstActive(old(items[..])), items.Length)
      ensures step.Select? ==>
        0 <= step.index < items.Length &&
        forall j :: 0 <= j < items.Length ==> (items[j] <==> j == step.index)
      ensures !step.Select? ==> items[..] == old(items[..])
    {
      var current := FirstActive(items[..]);
      NavKeys(key, current, items.Length);
      step := NavKeyTarget(key, current, items.Length);
      if step.Select? {
        Click(step.index);
      }
    }
  }
}
