/**
 * The gallery lightbox controller of the site's behaviour script: a fixed,
 * ordered list of image records collected once from the gallery markup, the
 * index of the record on show, and an overlay that is either closed or open.
 * Navigation is circular.
 *
 * The controller's state is described twice: as a value (LightboxState) with
 * one transition function per handler, about which the lemmas below are
 * proved, and as the mutable object the script really is (class Controller),
 * each of whose methods is proved to perform the matching transition.
 */
module Lightbox {

  datatype Option<T> = None | Some(value: T)

  /** One `.gallery-item` element as the collection loop reads it: the `src`
      and `alt` of its `img`, and the text of its `h4` and `p`, either of
      which may be missing. */
  datatype GalleryItem = GalleryItem(
    imgSrc: string,
    imgAlt: string,
    heading: Option<string>,
    paragraph: Option<string>)

  /** One entry of the gallery list. */
  datatype ImageRecord = ImageRecord(src: string, alt: string, title: string, description: string)

  /** `element?.textContent || ''`: a missing element reads as the empty text. */
  function TextOrEmpty(e: Option<string>): string
  {
    match e
    case Some(text) => text
    case None => ""
  }

  /** `images` holds exactly one record per gallery item, in document order,
      with a missing title or description read as the empty string. */
  predicate CollectedFrom(images: seq<ImageRecord>, items: seq<GalleryItem>)
  {
    && |images| == |items|
    && forall k :: 0 <= k < |items| ==>
         && images[k].src == items[k].imgSrc
         && images[k].alt == items[k].imgAlt
         && images[k].title == (if items[k].heading.Some? then items[k].heading.value else "")
         && images[k].description == (if items[k].paragraph.Some? then items[k].paragraph.value else "")
  }

  /** The `forEach` over the gallery items that pushes one record per item. */
  method CollectImages(items: seq<GalleryItem>) returns (images: seq<ImageRecord>)
    ensures CollectedFrom(images, items)
  {
    images := [];
    var index := 0;
    while index < |items|
      invariant 0 <= index <= |items|
      invariant CollectedFrom(images, items[..index])
    {
      var item := items[index];
      var title := TextOrEmpty(item.heading);
      var description := TextOrEmpty(item.paragraph);
      images := images + [ImageRecord(item.imgSrc, item.imgAlt, title, description)];
      index := index + 1;
    }
    assert items[..index] == items;
  }

  // ---------------------------------------------------------------------
  // Caption markup
  // ---------------------------------------------------------------------

  /** The caption markup written into the overlay for a record. */
  function Caption(image: ImageRecord): string
  {
    "<h4>" + image.title + "</h4><p>" + image.description + "</p>"
  }

  /** The position of the first '<' at or after `from`, or |s| if there is none. */
  function IndexOfLt(s: string, from: nat): (k: nat)
    requires from <= |s|
    ensures from <= k <= |s|
    ensures k < |s| ==> s[k] == '<'
    ensures forall j :: from <= j < k ==> s[j] != '<'
    decreases |s| - from
  {
    if from == |s| || s[from] == '<' then from else IndexOfLt(s, from + 1)
  }

  /** Reads a title and a description back out of caption markup, if it has
      the shape `<h4>title</h4><p>description</p>` with a title free of '<'. */
  function CaptionParts(c: string): Option<(string, string)>
  {
    if |c| < 16 || c[..4] != "<h4>" || c[|c| - 4..] != "</p>" then None
    else
      var k := IndexOfLt(c, 4);
      if k + 8 <= |c| - 4 && c[k..k + 8] == "</h4><p>" then Some((c[4..k], c[k + 8..|c| - 4]))
      else None
  }

  /** The caption carries the record's title and description recoverably, as
      long as the title holds no '<' (the script does not escape the texts it
      interpolates into the markup). */
  lemma CaptionRoundTrip(image: ImageRecord)
    requires forall j :: 0 <= j < |image.title| ==> image.title[j] != '<'
    ensures CaptionParts(Caption(image)) == Some((image.title, image.description))
  {
    var c := Caption(image);
    var t, d := image.title, image.description;
    var k := 4 + |t|;
    assert c[..4] == "<h4>";
    assert c[|c| - 4..] == "</p>";
    assert c[4..k] == t;
    assert c[k..k + 8] == "</h4><p>";
    assert c[k + 8..|c| - 4] == d;
    forall j | 4 <= j < k
      ensures c[j] != '<'
    {
      assert c[j] == t[j - 4];
    }
    var found := IndexOfLt(c, 4);
    assert c[k] == '<';
    assert found == k;
  }

  // ---------------------------------------------------------------------
  // Index arithmetic
  // ---------------------------------------------------------------------

  /** The quotient JavaScript's `%` implies: the true quotient truncated
      toward zero. */
  function JsQuotient(a: int, n: int): int
    requires n > 0
  {
    if a >= 0 then a / n else -((-a) / n)
  }

  /** The `%` operator of JavaScript on an integer dividend and a positive
      divisor (a list length): it truncates, so the remainder takes the sign
      of the dividend, unlike Dafny's `%`. */
  function JsRemainder(a: int, n: int): (r: int)
    requires n > 0
    ensures -n < r < n
    ensures a >= 0 ==> r >= 0
    ensures a <= 0 ==> r <= 0
    ensures a == n * JsQuotient(a, n) + r
  {
    if a >= 0 then a % n else -((-a) % n)
  }

  /** `(currentImageIndex + 1) % galleryImages.length`: one step forward, wrapping
      from the last record to the first. */
  function NextIndex(i: int, n: int): (r: int)
    requires 0 <= i < n
    ensures 0 <= r < n
    ensures r == if i == n - 1 then 0 else i + 1
  {
    JsRemainder(i + 1, n)
  }

  /** `(currentImageIndex - 1 + galleryImages.length) % galleryImages.length`:
      one step back, wrapping from the first record to the last. */
  function PrevIndex(i: int, n: int): (r: int)
    requires 0 <= i < n
    ensures 0 <= r < n
    ensures r == if i == 0 then n - 1 else i - 1
  {
    // One full length past position i - 1 reduces back to it.
    assert i > 0 ==> (i - 1 + n) % n == i - 1;
    JsRemainder(i - 1 + n, n)
  }

  lemma NextPrevInverse(i: int, n: int)
    requires 0 <= i < n
    ensures PrevIndex(NextIndex(i, n), n) == i
    ensures NextIndex(PrevIndex(i, n), n) == i
  {
  }

  /** The index after `k` forward steps. */
  function NextTimes(i: int, n: int, k: nat): (r: int)
    requires 0 <= i < n
    ensures 0 <= r < n
  {
    if k == 0 then i else NextIndex(NextTimes(i, n, k - 1), n)
  }

  /** The index after `k` backward steps. */
  function PrevTimes(i: int, n: int, k: nat): (r: int)
    requires 0 <= i < n
    ensures 0 <= r < n
  {
    if k == 0 then i else PrevIndex(PrevTimes(i, n, k - 1), n)
  }

  lemma {:induction false} NextTimesShift(i: int, n: int, k: nat)
    requires 0 <= i < n && k <= n
    ensures NextTimes(i, n, k) == if i + k < n then i + k else i + k - n
  {
    if k > 0 {
      NextTimesShift(i, n, k - 1);
    }
  }

  lemma {:induction false} PrevTimesShift(i: int, n: int, k: nat)
    requires 0 <= i < n && k <= n
    ensures PrevTimes(i, n, k) == if k <= i then i - k else i - k + n
  {
    if k > 0 {
      PrevTimesShift(i, n, k - 1);
    }
  }

  /** Stepping forward, or back, once per record comes back to the start. */
  lemma FullCycle(i: int, n: int)
    requires 0 <= i < n
    ensures NextTimes(i, n, n) == i
    ensures PrevTimes(i, n, n) == i
  {
    NextTimesShift(i, n, n);
    PrevTimesShift(i, n, n);
  }

  // ---------------------------------------------------------------------
  // The controller as a value
  // ---------------------------------------------------------------------

  /** Where a click inside the overlay lands: the overlay element itself (the
      backdrop), one of its three controls, or anything else inside it (the
      image, the caption). */
  datatype ClickTarget = Overlay | CloseButton | PrevButton | NextButton | Content

  /** `images` is the gallery list, `index` is `currentImageIndex`, `active`
      the overlay's `active` class, `scrollLocked` the page body's
      `overflow: hidden`, and `src`, `alt`, `caption` what the overlay shows. */
  datatype LightboxState = LightboxState(
    images: seq<ImageRecord>,
    index: int,
    active: bool,
    scrollLocked: bool,
    src: string,
    alt: string,
    caption: string)

  /** The overlay shows record `i`. */
  predicate Shows(s: LightboxState, i: int)
    requires 0 <= i < |s.images|
  {
    s.src == s.images[i].src && s.alt == s.images[i].alt && s.caption == Caption(s.images[i])
  }

  /** What every handler keeps: the index is a position of the list whenever
      the list is not empty, the page scrolls exactly while the overlay is
      closed, and an open overlay shows the current record. */
  predicate Inv(s: LightboxState)
  {
    && 0 <= s.index
    && (|s.images| > 0 ==> s.index < |s.images|)
    && s.scrollLocked == s.active
    && (s.active ==> |s.images| > 0 && Shows(s, s.index))
  }

  /** The state right after the page script has run: index 0, overlay closed,
      nothing shown yet. */
  function Initial(images: seq<ImageRecord>): (s: LightboxState)
    ensures Inv(s) && !s.active && s.images == images
  {
    LightboxState(images, 0, false, false, "", "", "")
  }

  /** openLightbox(i). */
  function Opened(s: LightboxState, i: int): (r: LightboxState)
    requires 0 <= i < |s.images|
    ensures Inv(r)
  {
    var image := s.images[i];
    s.(index := i, src := image.src, alt := image.alt, caption := Caption(image),
       active := true, scrollLocked := true)
  }

  /** closeLightbox(). */
  function Closed(s: LightboxState): (r: LightboxState)
    ensures Inv(s) ==> Inv(r)
  {
    s.(active := false, scrollLocked := false)
  }

  /** showPrevImage(). */
  function Prev(s: LightboxState): (r: LightboxState)
    requires 0 <= s.index < |s.images|
    ensures Inv(r) && r.images == s.images
  {
    Opened(s, PrevIndex(s.index, |s.images|))
  }

  /** showNextImage(). */
  function Next(s: LightboxState): (r: LightboxState)
    requires 0 <= s.index < |s.images|
    ensures Inv(r) && r.images == s.images
  {
    Opened(s, NextIndex(s.index, |s.images|))
  }

  /** The document's keydown handler: nothing while the overlay is closed,
      otherwise the three key tests in turn. */
  function AfterKey(s: LightboxState, key: string): (r: LightboxState)
    requires Inv(s)
    ensures Inv(r) && r.images == s.images
  {
    if !s.active then s
    else
      var s1 := if key == "Escape" then Closed(s) else s;
      var s2 := if key == "ArrowLeft" then Prev(s1) else s1;
      if key == "ArrowRight" then Next(s2) else s2
  }

  /** The overlay's own click handler: it closes only when the click landed
      on the overlay element itself. */
  function AfterBackdropClick(s: LightboxState, target: ClickTarget): (r: LightboxState)
    ensures Inv(s) ==> Inv(r)
  {
    if target.Overlay? then Closed(s) else s
  }

  /** A click inside the overlay: the target's own listener first, if it is a
      control, then the overlay's handler, which the click bubbles up to. */
  function AfterClick(s: LightboxState, target: ClickTarget): (r: LightboxState)
    requires Inv(s)
    requires (target.PrevButton? || target.NextButton?) ==> |s.images| > 0
    ensures Inv(r) && r.images == s.images
  {
    var s1 := match target
      case CloseButton => Closed(s)
      case PrevButton => Prev(s)
      case NextButton => Next(s)
      case _ => s;
    AfterBackdropClick(s1, target)
  }

  // ---------------------------------------------------------------------
  // Properties of the transitions
  // ---------------------------------------------------------------------

  lemma OpenShowsRecord(s: LightboxState, i: int)
    requires 0 <= i < |s.images|
    ensures var r := Opened(s, i);
      && r.index == i && r.active && r.scrollLocked
      && r.src == s.images[i].src && r.alt == s.images[i].alt
      && r.caption == "<h4>" + s.images[i].title + "</h4><p>" + s.images[i].description + "</p>"
      && r.images == s.images
  {
  }

  /** Reopening the record already on show changes nothing. */
  lemma OpenCurrentIsNoOp(s: LightboxState)
    requires Inv(s) && s.active
    ensures Opened(s, s.index) == s
  {
  }

  lemma CloseKeepsPosition(s: LightboxState)
    ensures var r := Closed(s);
      && !r.active && !r.scrollLocked
      && r.index == s.index && r.images == s.images
      && r.src == s.src && r.alt == s.alt && r.caption == s.caption
  {
  }

  lemma CloseIdempotent(s: LightboxState)
    ensures Closed(Closed(s)) == Closed(s)
  {
  }

  /** Closing an overlay that is already closed changes nothing. */
  lemma CloseWhenClosedIsNoOp(s: LightboxState)
    requires Inv(s) && !s.active
    ensures Closed(s) == s
  {
  }

  lemma StepsStayInRange(s: LightboxState)
    requires 0 <= s.index < |s.images|
    ensures var n := |s.images|;
      && Next(s).index == (s.index + 1) % n
      && Prev(s).index == (s.index - 1 + n) % n
      && 0 <= Next(s).index < n && 0 <= Prev(s).index < n
  {
  }

  /** From an open overlay, a step forward and a step back (in either order)
      return to exactly the same state. */
  lemma NextPrevRestores(s: LightboxState)
    requires Inv(s) && s.active
    ensures Prev(Next(s)) == s
    ensures Next(Prev(s)) == s
  {
    NextPrevInverse(s.index, |s.images|);
  }

  /** `k` consecutive forward steps. */
  function NextSteps(s: LightboxState, k: nat): (r: LightboxState)
    requires 0 <= s.index < |s.images|
    ensures r.images == s.images && 0 <= r.index < |r.images|
  {
    if k == 0 then s else Next(NextSteps(s, k - 1))
  }

  /** `k` consecutive backward steps. */
  function PrevSteps(s: LightboxState, k: nat): (r: LightboxState)
    requires 0 <= s.index < |s.images|
    ensures r.images == s.images && 0 <= r.index < |r.images|
  {
    if k == 0 then s else Prev(PrevSteps(s, k - 1))
  }

  lemma {:induction false} NextStepsOpen(s: LightboxState, k: nat)
    requires 0 <= s.index < |s.images| && k > 0
    ensures NextSteps(s, k) == Opened(s, NextTimes(s.index, |s.images|, k))
  {
    if k > 1 {
      NextStepsOpen(s, k - 1);
    }
  }

  lemma {:induction false} PrevStepsOpen(s: LightboxState, k: nat)
    requires 0 <= s.index < |s.images| && k > 0
    ensures PrevSteps(s, k) == Opened(s, PrevTimes(s.index, |s.images|, k))
  {
    if k > 1 {
      PrevStepsOpen(s, k - 1);
    }
  }

  /** With the overlay open on a list of n records, n steps forward, or n steps
      back, come back to exactly the same state. */
  lemma StepsCycle(s: LightboxState)
    requires Inv(s) && s.active
    ensures NextSteps(s, |s.images|) == s
    ensures PrevSteps(s, |s.images|) == s
  {
    NextStepsOpen(s, |s.images|);
    PrevStepsOpen(s, |s.images|);
    FullCycle(s.index, |s.images|);
  }

  /** No key does anything while the overlay is closed. */
  lemma KeyWhileClosedIsIgnored(s: LightboxState, key: string)
    requires Inv(s) && !s.active
    ensures AfterKey(s, key) == s
  {
  }

  /** While the overlay is open: Escape closes it, ArrowLeft and ArrowRight
      step back and forward, and every other key leaves it alone. */
  lemma KeyWhileOpen(s: LightboxState, key: string)
    requires Inv(s) && s.active
    ensures key == "Escape" ==> AfterKey(s, key) == Closed(s)
    ensures key == "ArrowLeft" ==> AfterKey(s, key) == Prev(s)
    ensures key == "ArrowRight" ==> AfterKey(s, key) == Next(s)
    ensures key !in {"Escape", "ArrowLeft", "ArrowRight"} ==> AfterKey(s, key) == s
  {
  }

  /** A click closes the overlay through the backdrop handler exactly when it
      lands on the overlay element itself. */
  lemma BackdropClickClosesOnlyOnOverlay(s: LightboxState, target: ClickTarget)
    ensures target.Overlay? ==> AfterBackdropClick(s, target) == Closed(s)
    ensures !target.Overlay? ==> AfterBackdropClick(s, target) == s
    ensures var r := AfterBackdropClick(s, target);
      && r.active == (s.active && !target.Overlay?)
      && r.scrollLocked == (s.scrollLocked && !target.Overlay?)
      && r.index == s.index && r.images == s.images
      && r.src == s.src && r.alt == s.alt && r.caption == s.caption
  {
  }

  /** Each click target does what its listener says, and the bubbling to the
      overlay's handler adds nothing for a control. */
  lemma ClickEffects(s: LightboxState, target: ClickTarget)
    requires Inv(s)
    requires (target.PrevButton? || target.NextButton?) ==> |s.images| > 0
    ensures target.Overlay? || target.CloseButton? ==> AfterClick(s, target) == Closed(s)
    ensures target.PrevButton? ==> AfterClick(s, target) == Prev(s)
    ensures target.NextButton? ==> AfterClick(s, target) == Next(s)
    ensures target.Content? ==> AfterClick(s, target) == s
  {
  }

  // ---------------------------------------------------------------------
  // The controller as the script keeps it
  // ---------------------------------------------------------------------

  class Controller {
    var images: seq<ImageRecord>
    var currentImageIndex: int
    var active: bool
    var scrollLocked: bool
    var imgSrc: string
    var imgAlt: string
    var captionHtml: string

    function State(): LightboxState
      reads this
    {
      LightboxState(images, currentImageIndex, active, scrollLocked, imgSrc, imgAlt, captionHtml)
    }

    predicate Valid()
      reads this
    {
      Inv(State())
    }

    /** Page start-up: collect the gallery records, overlay closed. */
    constructor (items: seq<GalleryItem>)
      ensures Valid()
      ensures CollectedFrom(images, items)
      ensures State() == Initial(images)
    {
      var collected := CollectImages(items);
      images := collected;
      currentImageIndex := 0;
      active := false;
      scrollLocked := false;
      imgSrc, imgAlt, captionHtml := "", "", "";
    }

    /** openLightbox(index); the script performs no bounds check, so the
        index must be a position of the list. */
    method OpenLightbox(index: int)
      requires 0 <= index < |images|
      modifies this
      ensures Valid()
      ensures State() == Opened(old(State()), index)
    {
      currentImageIndex := index;
      var image := images[index];
      imgSrc := image.src;
      imgAlt := image.alt;
      captionHtml := Caption(image);
      active := true;
      scrollLocked := true;
    }

    /** closeLightbox(). */
    method CloseLightbox()
      requires Valid()
      modifies this
      ensures Valid()
      ensures State() == Closed(old(State()))
    {
      active := false;
      scrollLocked := false;
    }

    /** showPrevImage(); on an empty list the script's `%` yields NaN and
        the record lookup throws. */
    method ShowPrevImage()
      requires Valid() && |images| > 0
      modifies this
      ensures Valid()
      ensures State() == Prev(old(State()))
    {
      currentImageIndex := JsRemainder(currentImageIndex - 1 + |images|, |images|);
      OpenLightbox(currentImageIndex);
    }

    /** showNextImage(). */
    method ShowNextImage()
      requires Valid() && |images| > 0
      modifies this
      ensures Valid()
      ensures State() == Next(old(State()))
    {
      currentImageIndex := JsRemainder(currentImageIndex + 1, |images|);
      OpenLightbox(currentImageIndex);
    }

    /** The overlay's click handler (close when the backdrop itself is hit). */
    method OnBackdropClick(target: ClickTarget)
      requires Valid()
      modifies this
      ensures Valid()
      ensures State() == AfterBackdropClick(old(State()), target)
    {
      if target.Overlay? {
        CloseLightbox();
      }
    }

    /** A click inside the overlay: the control's own listener, then the
        overlay's handler as the click bubbles up. */
    method OnClick(target: ClickTarget)
      requires Valid()
      requires (target.PrevButton? || target.NextButton?) ==> |images| > 0
      modifies this
      ensures Valid()
      ensures State() == AfterClick(old(State()), target)
    {
      match target {
        case CloseButton => CloseLightbox();
        case PrevButton => ShowPrevImage();
        case NextButton => ShowNextImage();
        case _ =>
      }
      OnBackdropClick(target);
    }

    /** The document's keydown handler. */
    method OnKeyDown(key: string)
      requires Valid()
      modifies this
      ensures Valid()
      ensures State() == AfterKey(old(State()), key)
    {
      if !active {
        return;
      }
      if key == "Escape" {
        CloseLightbox();
      }
      if key == "ArrowLeft" {
        ShowPrevImage();
      }
      if key == "ArrowRight" {
        ShowNextImage();
      }
    }
  }
}
