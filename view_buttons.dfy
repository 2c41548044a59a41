/** `setViewButtonStates`: the view toggle shows the current view's button in the
    active style (black background, white text) and the other in the inactive style
    (white background, grey text), leaving every other class of both buttons alone. */
module ViewButtons {
  const StructuredView := "structured"
  const RawView := "raw"
  const ActiveClasses: set<string> := {"bg-black", "text-white"}
  const InactiveClasses: set<string> := {"bg-white", "text-gray-700"}

  /** A button element; only its class list is modelled, as a set of class names. */
  class Button {
    var classes: set<string>

    constructor(classes: set<string>)
      ensures this.classes == classes
    {
      this.classes := classes;
    }
  }

  predicate IsActive(classes: set<string>)
  {
    ActiveClasses <= classes && classes !! InactiveClasses
  }

  predicate IsInactive(classes: set<string>)
  {
    InactiveClasses <= classes && classes !! ActiveClasses
  }

  /** No class list carries both styles at once. */
  lemma StylesExclusive(classes: set<string>)
    ensures !(IsActive(classes) && IsInactive(classes))
  {
    assert "bg-black" in ActiveClasses;
  }

  /** The class list after styling a button active or inactive: the style's two
      classes are added, the opposite style's two removed, the rest kept. */
  function Restyled(classes: set<string>, active: bool): (r: set<string>)
    ensures active ==> IsActive(r)
    ensures !active ==> IsInactive(r)
    ensures forall c :: c !in ActiveClasses && c !in InactiveClasses ==> (c in r <==> c in classes)
  {
    if active then classes + ActiveClasses - InactiveClasses
    else classes + InactiveClasses - ActiveClasses
  }

  /** Any view name other than "structured" selects the raw view. */
  method SetViewButtonStates(structuredBtn: Button, rawBtn: Button, currentView: string)
    requires structuredBtn != rawBtn
    modifies structuredBtn, rawBtn
    ensures structuredBtn.classes == Restyled(old(structuredBtn.classes), currentView == StructuredView)
    ensures rawBtn.classes == Restyled(old(rawBtn.classes), currentView != StructuredView)
  {
    if currentView == StructuredView {
      structuredBtn.classes := structuredBtn.classes + {"bg-black", "text-white"};
      structuredBtn.classes := structuredBtn.classes - {"bg-white", "text-gray-700"};
      rawBtn.classes := rawBtn.classes + {"bg-white", "text-gray-700"};
      rawBtn.classes := rawBtn.classes - {"bg-black", "text-white"};
    } else {
      rawBtn.classes := rawBtn.classes + {"bg-black", "text-white"};
      rawBtn.classes := rawBtn.classes - {"bg-white", "text-gray-700"};
      structuredBtn.classes := structuredBtn.classes + {"bg-white", "text-gray-700"};
      structuredBtn.classes := structuredBtn.classes - {"bg-black", "text-white"};
    }
  }

  /** After the toggle exactly one of the two buttons is styled active, and it is
      the structured one exactly when the structured view was selected. */
  lemma ExactlyOneActive(structuredClasses: set<string>, rawClasses: set<string>, currentView: string)
    ensures var s := Restyled(structuredClasses, currentView == StructuredView);
            var r := Restyled(rawClasses, currentView != StructuredView);
            && (IsActive(s) <==> currentView == StructuredView)
            && (IsActive(r) <==> currentView != StructuredView)
            && (IsActive(s) <==> IsInactive(r))
  {
    StylesExclusive(Restyled(structuredClasses, currentView == StructuredView));
    StylesExclusive(Restyled(rawClasses, currentView != StructuredView));
  }

  /** Choosing the same view twice leaves the classes as after the first time. */
  lemma RestyleIdempotent(classes: set<string>, active: bool)
    ensures Restyled(Restyled(classes, active), active) == Restyled(classes, active)
  {
  }
}
