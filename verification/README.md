# Gallery lightbox and program cards of the Nipong Allah site script

This project is a Dafny model of the two pieces of state-keeping logic in the
site's behaviour script, `js/script.js`.

**The gallery lightbox controller.** It covers lines 107-192. At start-up the
script reads every `.gallery-item` into a list of image records, in document
order. A missing heading or paragraph becomes the empty string. Clicking item
`i` opens the overlay on record `i`. The overlay shows the record's image, its
alt text and a caption `<h4>title</h4><p>description</p>`, and it locks page
scrolling. The previous and next controls and the arrow keys step through the
list circularly, using the truncating JavaScript `%`. Escape, the close control
and a click on the backdrop close the overlay. Keys do nothing while the overlay
is closed.

**The expandable program cards.** They cover lines 393-422. Clicking a card's
button toggles the card's `expanded` class. The click also sets the button's
`aria-expanded` to the negation of the state before the click, and sets its
label to "Show Less" or "Learn More". Enter and Space act as a click.

Both components are modelled twice:

- **As a value.** `Lightbox.LightboxState` and `ProgramCards.CardState` hold
  the state. There is one transition function per handler: `Opened`, `Closed`,
  `Prev`, `Next`, `AfterKey`, `AfterBackdropClick`, `AfterClick`, `Clicked` and
  `KeyPressed`. The lemmas are proved about these functions.
- **As the mutable object the script keeps.** These are the classes
  `Lightbox.Controller` and `ProgramCards.Card`. Each handler is a method, and
  each method is proved to leave its object in `F(old(State()))` for the
  matching transition function `F`.

`Lightbox.Inv` is the controller's invariant, and every transition keeps it:

- the index is a position of the list whenever the list is non-empty;
- scrolling is locked exactly while the overlay is open;
- an open overlay shows the current record.

Three choices follow the code's behaviour at its edges:

- Navigation on an empty gallery is not a no-op. There `% galleryImages.length`
  is `NaN`, so `currentImageIndex` becomes `NaN`. `galleryImages[NaN]` is
  `undefined`, and reading its `src` in `openLightbox` throws. So
  `ShowPrevImage`, `ShowNextImage` and the prev/next controls require a
  non-empty list.
- `openLightbox` does no bounds check, so `OpenLightbox` requires
  `0 <= index < |images|`. The item click handlers always pass a valid index,
  because the list has exactly one record per item (`CollectedFrom`).
- `showPrevImage` and `showNextImage` do not test whether the overlay is open;
  only the keydown handler does. So `Prev` and `Next` are defined on a closed
  overlay too, and they open it.

The caption round trip (`CaptionRoundTrip`) holds only for titles without `<`.
The script writes the title and description into `innerHTML` without escaping
them, so a title containing markup changes the caption's structure.

## Model

| member | source | states |
|---|---|---|
| Lightbox.CollectImages | js/script.js:119-129 | the record list has exactly one record per gallery item, in document order, with the item's src and alt; a missing heading or paragraph gives the empty title or description |
| Lightbox.Controller.constructor | js/script.js:115-135 | after start-up the list is the collected one, the index is 0, the overlay is closed and scrolling is free; the invariant holds |
| Lightbox.Initial | js/script.js:115-116 | the start-up state satisfies the controller invariant and is closed |
| Lightbox.CaptionRoundTrip | js/script.js:143 | the caption markup gives back exactly the record's title and description when the title holds no '<' |
| Lightbox.JsRemainder | js/script.js:154 | JavaScript's `%`: the remainder is smaller in magnitude than the divisor, has the sign of the dividend, and dividend = divisor * truncated quotient + remainder |
| Lightbox.NextIndex | js/script.js:159 | one step forward stays in [0, n) and is i + 1, except that the last position wraps to 0 |
| Lightbox.PrevIndex | js/script.js:154 | one step back stays in [0, n) and is i - 1, except that position 0 wraps to n - 1 |
| Lightbox.NextPrevInverse | js/script.js:153-161 | a step forward and a step back undo each other, in either order |
| Lightbox.NextTimesShift | js/script.js:158-161 | k <= n forward steps from i reach i + k, reduced by n once it passes the end |
| Lightbox.PrevTimesShift | js/script.js:153-156 | k <= n backward steps from i reach i - k, raised by n once it passes the start |
| Lightbox.FullCycle | js/script.js:153-161 | n forward steps, and also n backward steps, over a list of n records return to the starting index |
| Lightbox.Opened | js/script.js:137-146 | opening any valid position yields a state satisfying the controller invariant |
| Lightbox.OpenShowsRecord | js/script.js:137-146 | openLightbox(i) sets the index to i, marks the overlay active, locks scrolling, shows record i's src and alt and the caption `<h4>title</h4><p>description</p>`, and keeps the list |
| Lightbox.OpenCurrentIsNoOp | js/script.js:137-146 | reopening the record already on show leaves the state unchanged |
| Lightbox.Closed | js/script.js:148-151 | closing keeps the controller invariant |
| Lightbox.CloseKeepsPosition | js/script.js:148-151 | closing clears the active flag and the scroll lock and keeps the index, the list and what is displayed |
| Lightbox.CloseIdempotent | js/script.js:148-151 | closing twice gives the same state as closing once |
| Lightbox.CloseWhenClosedIsNoOp | js/script.js:148-151 | closing an overlay that is already closed leaves the state unchanged |
| Lightbox.Prev | js/script.js:153-156 | showPrevImage keeps the invariant and the list |
| Lightbox.Next | js/script.js:158-161 | showNextImage keeps the invariant and the list |
| Lightbox.StepsStayInRange | js/script.js:153-161 | next yields (i+1) % n and prev yields (i-1+n) % n, both in [0, n) |
| Lightbox.NextPrevRestores | js/script.js:153-161 | from an open overlay, next then prev (or prev then next) gives back exactly the same state |
| Lightbox.NextSteps | js/script.js:158-161 | any number of forward steps keeps the list and a valid index |
| Lightbox.PrevSteps | js/script.js:153-156 | any number of backward steps keeps the list and a valid index |
| Lightbox.NextStepsOpen | js/script.js:153-161 | k >= 1 forward steps amount to opening the record k positions further on, circularly |
| Lightbox.PrevStepsOpen | js/script.js:153-156 | k >= 1 backward steps amount to opening the record k positions back, circularly |
| Lightbox.StepsCycle | js/script.js:153-161 | from an open overlay on n records, n nexts, and also n prevs, give back exactly the same state |
| Lightbox.AfterKey | js/script.js:186-192 | the keydown handler keeps the invariant and the list |
| Lightbox.KeyWhileClosedIsIgnored | js/script.js:187 | while the overlay is closed, no key changes anything |
| Lightbox.KeyWhileOpen | js/script.js:189-191 | while open: Escape closes, ArrowLeft is showPrevImage, ArrowRight is showNextImage, and any other key changes nothing |
| Lightbox.AfterBackdropClick | js/script.js:178-182 | the backdrop handler keeps the invariant |
| Lightbox.BackdropClickClosesOnlyOnOverlay | js/script.js:178-182 | a click closes through the backdrop handler exactly when its target is the overlay element itself; any other target leaves the state unchanged; afterwards the overlay is active (and scrolling locked) exactly when it was before and the target was not the overlay, with index, list and display kept |
| Lightbox.AfterClick | js/script.js:164-183 | a click inside the overlay keeps the invariant and the list |
| Lightbox.ClickEffects | js/script.js:164-183 | the backdrop and the close control close; the prev and next controls step; a click on the image or caption changes nothing; the bubbled click adds nothing for a control |
| Lightbox.Controller.OpenLightbox | js/script.js:131-146 | the object performs `Opened` for a valid index and keeps the invariant |
| Lightbox.Controller.CloseLightbox | js/script.js:148-151 | the object performs `Closed` |
| Lightbox.Controller.ShowPrevImage | js/script.js:153-156 | with the JavaScript remainder, the object performs `Prev` on a non-empty list |
| Lightbox.Controller.ShowNextImage | js/script.js:158-161 | with the JavaScript remainder, the object performs `Next` on a non-empty list |
| Lightbox.Controller.OnBackdropClick | js/script.js:177-183 | the object performs `AfterBackdropClick` |
| Lightbox.Controller.OnClick | js/script.js:164-183 | the control's listener and then the bubbled overlay listener together perform `AfterClick` |
| Lightbox.Controller.OnKeyDown | js/script.js:186-192 | the keydown handler performs `AfterKey` |
| ProgramCards.Clicked | js/script.js:396-413 | a click flips `expanded` and leaves aria-expanded and the label consistent with the new state |
| ProgramCards.ClickLabel | js/script.js:405-412 | after a click the label is "Show Less" exactly when expanded and "Learn More" exactly when not; aria-expanded is "true" exactly when the card was folded before the click |
| ProgramCards.ClickTwice | js/script.js:396-413 | two clicks restore the class, and restore the whole state whenever it was consistent |
| ProgramCards.KeyPressed | js/script.js:416-421 | the card flips exactly when the key is Enter or Space, and a consistent card stays consistent |
| ProgramCards.KeyActsAsClick | js/script.js:416-421 | Enter or Space behaves exactly like a click; any other key changes nothing |
| ProgramCards.Card.OnClick | js/script.js:396-413 | the object performs `Clicked` |
| ProgramCards.Card.OnKeyDown | js/script.js:416-421 | the object performs `KeyPressed` |

## Left out

- DOM queries, `addEventListener` wiring and the writes to `innerHTML`, `classList` and `style` are not modelled. Only their effect on the model's fields is.
- The model assumes every element the handlers touch is present; the missing-element paths are not modelled:
  - The script guards the close, prev, next and backdrop listeners with `if (element)`.
  - A gallery item without an `img` makes `img.src` throw inside the collection loop, which stops the script there. The items before it keep their records and their click listeners. The close, prev, next, backdrop, keydown and card listeners are never added. An overlay opened from one of the earlier items therefore stays open with scrolling locked. `GalleryItem` always carries an image.
  - An expand button without a `.program-card` ancestor throws before anything changes.
  - A button without an `.expand-text` span throws after the class toggle and the `aria-expanded` write, leaving the label stale. `Card` always has both.
- The `src` property of an image is a resolved absolute URL in the browser. The model keeps the attribute value as the item provides it.
- The overlay image's `src`, its `alt` and the caption before the first opening come from the page markup, which is not part of this model. `Initial` sets them to the empty string. The invariant only describes what an open overlay shows.
- The overlay's `active` class and the body's `overflow` style are assumed absent at start-up.
- The model assumes one expand button per card. With two `.expand-btn` buttons in one card, a click on one would toggle the shared class and leave the other button's `aria-expanded` and label stale.
- `ProgramCards.Card.OnKeyDown`: `preventDefault` suppresses the browser's own activation of the button on Enter and Space. The model has no native activation, so the only effect of those keys is the explicit click.
- The other behaviours of the script are not modelled: the navigation toggle, smooth scrolling, link highlighting, the navbar shadow, the scroll-to-top button, clipboard copy, the contact form's mailto link, scroll animations, lazy loading, the footer year, placeholder images, `debounce` and the console messages. They depend on browser layout, timers, the clock, foreign calls or external URLs.
- On `load`, the placeholder-image code rewrites the `src` and `alt` of the gallery's `img` elements (js/script.js:358-363). The records were copied before that, at start-up, so the lightbox keeps showing the markup's original image and alt text while the thumbnail shows the placeholder. `CollectImages` takes the same one-time snapshot. None of the other behaviours shares state with the two components modelled here.
