/**
 * The expandable program cards: each `.expand-btn` button opens or folds its
 * `.program-card`, keeps its `aria-expanded` attribute in step and switches its
 * label between "Learn More" and "Show Less". Every card is independent of the
 * others and of the gallery.
 */
module ProgramCards {

  /** `expanded` is the card's `expanded` class, `ariaExpanded` the button's
      `aria-expanded` attribute, `buttonText` the text of its `.expand-text` span. */
  datatype CardState = CardState(expanded: bool, ariaExpanded: string, buttonText: string)

  /** `setAttribute` turns a boolean into its text. */
  function AttributeText(b: bool): string
  {
    if b then "true" else "false"
  }

  /** The label the handler writes for an expanded or a folded card. */
  function LabelFor(expanded: bool): string
  {
    if expanded then "Show Less" else "Learn More"
  }

  /** The attribute and the label agree with the card's class. */
  predicate Consistent(c: CardState)
  {
    c.ariaExpanded == AttributeText(c.expanded) && c.buttonText == LabelFor(c.expanded)
  }

  /** The button's click handler: the attribute gets the negation of the state
      read before the toggle, the label is chosen from the state after it. */
  function Clicked(c: CardState): (r: CardState)
    ensures r.expanded == !c.expanded
    ensures Consistent(r)
  {
    var isExpanded := c.expanded;
    var expanded := !isExpanded;
    CardState(expanded, AttributeText(!isExpanded), if expanded then "Show Less" else "Learn More")
  }

  /** The button's keydown handler: Enter and Space trigger a click. */
  function KeyPressed(c: CardState, key: string): (r: CardState)
    ensures r.expanded == (c.expanded != (key == "Enter" || key == " "))
    ensures Consistent(c) ==> Consistent(r)
  {
    if key == "Enter" || key == " " then Clicked(c) else c
  }

  /** After a click the label reads "Show Less" exactly when the card is
      expanded, and "Learn More" exactly when it is folded. */
  lemma ClickLabel(c: CardState)
    ensures Clicked(c).buttonText == "Show Less" <==> Clicked(c).expanded
    ensures Clicked(c).buttonText == "Learn More" <==> !Clicked(c).expanded
    ensures Clicked(c).ariaExpanded == "true" <==> !c.expanded
  {
  }

  /** Two clicks give back the original state, whenever that state was one the
      handler itself could have produced; the class is restored in any case. */
  lemma ClickTwice(c: CardState)
    ensures Clicked(Clicked(c)).expanded == c.expanded
    ensures Consistent(c) ==> Clicked(Clicked(c)) == c
  {
  }

  /** Enter and Space act exactly as a click; every other key does nothing. */
  lemma KeyActsAsClick(c: CardState, key: string)
    ensures key == "Enter" || key == " " ==> KeyPressed(c, key) == Clicked(c)
    ensures key != "Enter" && key != " " ==> KeyPressed(c, key) == c
  {
  }

  /** One expand button together with its card. */
  class Card {
    var expanded: bool
    var ariaExpanded: string
    var buttonText: string

    function State(): CardState
      reads this
    {
      CardState(expanded, ariaExpanded, buttonText)
    }

    /** The card as the page markup first renders it. */
    constructor (initial: CardState)
      ensures State() == initial
    {
      expanded := initial.expanded;
      ariaExpanded := initial.ariaExpanded;
      buttonText := initial.buttonText;
    }

    method OnClick()
      modifies this
      ensures State() == Clicked(old(State()))
    {
      var isExpanded := expanded;
      expanded := !expanded;
      ariaExpanded := AttributeText(!isExpanded);
      if expanded {
        buttonText := "Show Less";
      } else {
        buttonText := "Learn More";
      }
    }

    method OnKeyDown(key: string)
      modifies this
      ensures State() == KeyPressed(old(State()), key)
    {
      if key == "Enter" || key == " " {
        OnClick();
      }
    }
  }
}
