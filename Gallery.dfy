/**
 * The foundation gallery's lightbox (foundation-gallery.js): the closure
 * variable `currentImageIndex`, the modal's `active` class, the image the
 * modal shows and the display of the prev/next buttons, over a fixed
 * number `n` of gallery images.
 */
module Gallery {

  /** The index after `i`, wrapping from the last image to the first. */
  function Next(i: int, n: nat): (r: nat)
    requires 0 <= i < n
    ensures r < n
    ensures r == if i == n - 1 then 0 else i + 1
  {
    (i + 1) % n
  }

  /** The index before `i`, wrapping from the first image to the last. */
  function Prev(i: int, n: nat): (r: nat)
    requires 0 <= i < n
    ensures r < n
    ensures r == if i == 0 then n - 1 else i - 1
  {
    (i - 1 + n) % n
  }

  /** Going back undoes going forward, and going forward undoes going back. */
  lemma PrevUndoesNext(i: int, n: nat)
    requires 0 <= i < n
    ensures Prev(Next(i, n), n) == i
    ensures Next(Prev(i, n), n) == i
  {
  }

  /** `k` presses of the next button. */
  function Forward(i: int, n: nat, k: nat): (r: nat)
    requires 0 <= i < n
    ensures r < n
  {
    if k == 0 then i else Next(Forward(i, n, k - 1), n)
  }

  /** Presses that do not reach the end of the gallery simply advance the index. */
  lemma {:induction false} ForwardWithoutWrap(i: int, n: nat, k: nat)
    requires 0 <= i && i + k < n
    ensures Forward(i, n, k) == i + k
  {
    if k > 0 {
      ForwardWithoutWrap(i, n, k - 1);
    }
  }

  /** `a + b` presses are `a` presses followed by `b` presses. */
  lemma {:induction false} ForwardSplit(i: int, n: nat, a: nat, b: nat)
    requires 0 <= i < n
    ensures Forward(i, n, a + b) == Forward(Forward(i, n, a), n, b)
  {
    if b > 0 {
      ForwardSplit(i, n, a, b - 1);
    }
  }

  /** Navigation is cyclic: `n` presses of next return to the starting image. */
  lemma ForwardFullCircle(i: int, n: nat)
    requires 0 <= i < n
    ensures Forward(i, n, n) == i
  {
    ForwardWithoutWrap(i, n, n - 1 - i);
    assert Forward(i, n, n - i) == 0;
    ForwardSplit(i, n, n - i, i);
    ForwardWithoutWrap(0, n, i);
  }

  /** Hence pressing next is periodic with period `n`. */
  lemma ForwardPeriodic(i: int, n: nat, k: nat)
    requires 0 <= i < n
    ensures Forward(i, n, n + k) == Forward(i, n, k)
  {
    ForwardSplit(i, n, n, k);
    ForwardFullCircle(i, n);
  }

  class Lightbox {
    /** The number of gallery images. */
    const n: nat
    /** `currentImageIndex`. */
    var index: int
    /** The modal carries the `active` class. */
    var open: bool
    /** The gallery image whose source, alt text and caption the modal shows. */
    var shown: int
    /** The prev/next buttons are displayed. */
    var navShown: bool

    /** The index stays in range (it is 0 while there are no images); an open box shows a real image. */
    ghost predicate Valid()
      reads this
    {
      0 <= index && (index < n || index == 0)
      && 0 <= shown && (shown < n || shown == 0)
      && (open ==> shown < n && navShown == (n > 1))
    }

    /** The page loads with the lightbox closed at image 0. */
    constructor (count: nat)
      ensures Valid() && n == count && index == 0 && !open
    {
      n := count;
      index, open, shown, navShown := 0, false, 0, false;
    }

    /** `openLightbox(i)`: out-of-range indices are ignored; otherwise show image `i` and open. */
    method OpenLightbox(i: int)
      requires Valid()
      modifies this
      ensures Valid() && index == old(index)
      ensures 0 <= i < n ==> open && shown == i && navShown == (n > 1)
      ensures !(0 <= i < n) ==> open == old(open) && shown == old(shown) && navShown == old(navShown)
    {
      if i >= 0 && i < n {
        shown := i;
        open := true;
        UpdateNavigationButtons();
      }
    }

    /** `updateNavigationButtons`: the prev/next buttons are displayed iff there are two or more images. */
    method UpdateNavigationButtons()
      modifies this`navShown
      ensures navShown == (n > 1)
    {
      if n <= 1 {
        navShown := false;
      } else {
        navShown := true;
      }
    }

    /** `closeLightbox`: drop the `active` class; the index and the image stay. */
    method CloseLightbox()
      requires Valid()
      modifies this`open
      ensures Valid() && !open
    {
      open := false;
    }

    /** A click on gallery item `i`: remember it and open the lightbox on it. */
    method ClickItem(i: int)
      requires Valid() && 0 <= i < n
      modifies this
      ensures Valid() && index == i && open && shown == i
    {
      index := i;
      OpenLightbox(index);
    }

    /** `showPreviousImage`: step back with wrap-around and show that image. */
    method ShowPreviousImage()
      requires Valid() && n > 0
      modifies this
      ensures Valid() && index == Prev(old(index), n) && open && shown == index
    {
      index := (index - 1 + n) % n;
      OpenLightbox(index);
    }

    /** `showNextImage`: step forward with wrap-around and show that image. */
    method ShowNextImage()
      requires Valid() && n > 0
      modifies this
      ensures Valid() && index == Next(old(index), n) && open && shown == index
    {
      index := (index + 1) % n;
      OpenLightbox(index);
    }

    /** A click on the modal: only a click on the backdrop itself closes it. */
    method ClickModal(onBackdrop: bool)
      requires Valid()
      modifies this`open
      ensures Valid() && index == old(index) && shown == old(shown)
      ensures open == (old(open) && !onBackdrop)
    {
      if onBackdrop {
        CloseLightbox();
      }
    }

    /** The document keydown listener: keys act only while the lightbox is open. */
    method KeyDown(key: string)
      requires Valid()
      modifies this
      ensures Valid()
      ensures !old(open) ==> unchanged(this)
      ensures old(open) && key == "Escape" ==> !open && index == old(index) && shown == old(shown) && navShown == old(navShown)
      ensures old(open) && key == "ArrowLeft" ==> open && index == Prev(old(index), n) && shown == index
      ensures old(open) && key == "ArrowRight" ==> open && index == Next(old(index), n) && shown == index
      ensures old(open) && key != "Escape" && key != "ArrowLeft" && key != "ArrowRight" ==> unchanged(this)
    {
      if open {
        if key == "Escape" {
          CloseLightbox();
        } else if key == "ArrowLeft" {
          ShowPreviousImage();
        } else if key == "ArrowRight" {
          ShowNextImage();
        }
      }
    }
  }
}
