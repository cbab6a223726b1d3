/**
  Where dictated (or repeated) text goes.  The popup reads
  `document.activeElement` afresh on every insertion; a focused
  `input[type="text"]`, `textarea` or content-editable element receives the
  text (in its `innerHTML` when it is content-editable, in its `value`
  otherwise), and anything else sends it to the popup's own panel.
 */
module Insertion {

  /** A focused page element: the three tests the popup makes, and its two text slots. */
  datatype Element = Element(
    isTextInput: bool,        // matches 'input[type="text"]'
    isTextArea: bool,         // matches 'textarea'
    isContentEditable: bool,  // isContentEditable
    value: string,
    html: string)

  /** `document.activeElement`: none, the popup's own panel, or some other element. */
  datatype Active = NoActive | PanelActive | ElementActive(element: Element)

  /** The kinds of target the insertion policy distinguishes. */
  datatype Target = TextInputTarget | TextAreaTarget | ContentEditableTarget | PanelTarget

  /** What insertion reads and changes: the panel's text and the focused element. */
  datatype Screen = Screen(panel: string, active: Active)

  predicate Editable(e: Element) {
    e.isTextInput || e.isTextArea || e.isContentEditable
  }

  /**
    The resolved target: the focused element when it is a text input, a
    textarea or content-editable (content-editable winning, then text input),
    and the fallback panel when nothing qualifies has focus.
   */
  function Resolve(a: Active): (t: Target)
    ensures t == PanelTarget <==> a.NoActive? || (a.ElementActive? && !Editable(a.element))
    ensures t == ContentEditableTarget <==> a.ElementActive? && a.element.isContentEditable
    ensures t == TextInputTarget <==>
      a.ElementActive? && a.element.isTextInput && !a.element.isContentEditable
  {
    match a
    case NoActive => PanelTarget
    case PanelActive => TextAreaTarget
    case ElementActive(e) =>
      if !Editable(e) then PanelTarget
      else if e.isContentEditable then ContentEditableTarget
      else if e.isTextInput then TextInputTarget
      else TextAreaTarget
  }

  /** The three places text can be stored. */
  datatype Surface = PanelText | FocusedValue | FocusedHtml

  /** The current text of a surface (a surface with no focused element reads as empty). */
  function Content(sc: Screen, s: Surface): string {
    match s
    case PanelText => sc.panel
    case FocusedValue => if sc.active.ElementActive? then sc.active.element.value else ""
    case FocusedHtml => if sc.active.ElementActive? then sc.active.element.html else ""
  }

  /** The surface a target writes to: the panel itself may be the focused textarea. */
  function Receiver(a: Active): Surface {
    match Resolve(a)
    case PanelTarget => PanelText
    case ContentEditableTarget => FocusedHtml
    case _ => if a.PanelActive? then PanelText else FocusedValue
  }

  /** The kind tests of the focused element, which insertion never changes. */
  function Focus(a: Active): Active {
    match a
    case ElementActive(e) => ElementActive(e.(value := "", html := ""))
    case _ => a
  }

  /**
    Appending `text` to the resolved target: exactly that target's surface
    gains `text` at its end, every other surface keeps its text, and focus and
    element kinds are unchanged.
   */
  function Insert(sc: Screen, text: string): (r: Screen)
    ensures Content(r, Receiver(sc.active)) == Content(sc, Receiver(sc.active)) + text
    ensures forall s :: s != Receiver(sc.active) ==> Content(r, s) == Content(sc, s)
    ensures Focus(r.active) == Focus(sc.active)
  {
    match Resolve(sc.active)
    case PanelTarget => sc.(panel := sc.panel + text)
    case ContentEditableTarget =>
      var e := sc.active.element;
      sc.(active := ElementActive(e.(html := e.html + text)))
    case _ =>
      if sc.active.PanelActive? then sc.(panel := sc.panel + text)
      else
        var e := sc.active.element;
        sc.(active := ElementActive(e.(value := e.value + text)))
  }

  /** The receiving surface depends only on focus and element kinds. */
  lemma ReceiverFollowsFocus(a: Active, b: Active)
    requires Focus(a) == Focus(b)
    ensures Resolve(a) == Resolve(b) && Receiver(a) == Receiver(b)
  {
    if a.ElementActive? {
      assert Focus(a).element.isTextInput == a.element.isTextInput;
    }
  }
}
