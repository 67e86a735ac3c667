/** The element and key-event tests of the content script: which elements
    the expander acts on (`isEditableElement`, `isExcludedElement`) and
    which key presses it reacts to (`handleKeyDown`). */
module Elements {
  import opened Wrappers
  import opened Text

  /** Identity of a DOM element; the undo snapshot compares elements by
      reference, which is equality of ids here. */
  type ElementId = nat

  /** The attributes the content script reads from an element:
      `tagName`, the `type` property (absent on elements that have none),
      `readOnly`, the `autocomplete` attribute (absent when not set) and the
      `contentEditable` property. */
  datatype Attributes = Attributes(
    tagName: string,
    elementType: Option<string>,
    readOnly: bool,
    autocomplete: Option<string>,
    contentEditable: string)

  datatype Element = Element(id: ElementId, attrs: Attributes)

  /** The lower-cased `type` values of inputs that take free text. */
  const TextInputTypes: seq<string> := ["text", "search", "url", "tel", "email"]

  /** `isExcludedElement`: password fields and payment fields are never
      touched. The `email` clause reads the raw attribute, the later clause
      the lower-cased one. */
  predicate IsExcluded(a: Attributes)
    ensures a.elementType.Some? && Lower(a.elementType.value) == "password" ==> IsExcluded(a)
    ensures a.autocomplete.None? && (a.elementType.None? || Lower(a.elementType.value) != "password") ==>
              !IsExcluded(a)
  {
    var t := if a.elementType.Some? then Some(Lower(a.elementType.value)) else None;
    var raw := if a.autocomplete.Some? then a.autocomplete.value else "";
    var ac := Lower(raw);
    || t == Some("password")
    || (t == Some("email") && a.autocomplete.Some? && Contains(raw, "cc-"))
    || Contains(ac, "cc-")
    || Contains(ac, "card")
  }

  /** The `email` clause of `isExcludedElement` never decides anything on
      its own: an element is excluded exactly when its type is `password`
      or its lower-cased autocomplete hint contains `cc-` or `card`. */
  lemma ExcludedCharacterization(a: Attributes)
    ensures IsExcluded(a) <==>
              || (a.elementType.Some? && Lower(a.elementType.value) == "password")
              || (a.autocomplete.Some? && Contains(Lower(a.autocomplete.value), "cc-"))
              || (a.autocomplete.Some? && Contains(Lower(a.autocomplete.value), "card"))
  {
    if a.autocomplete.Some? && Contains(a.autocomplete.value, "cc-") {
      ContainsLower(a.autocomplete.value, "cc-");
      assert Lower("cc-") == "cc-";
    }
    if a.autocomplete.None? {
      assert !Contains(Lower(""), "cc-") && !Contains(Lower(""), "card");
    }
  }

  /** Examples: a password field, payment hints in any letter case, and
      an ordinary text field. */
  lemma ExclusionExamples()
    ensures IsExcluded(Attributes("INPUT", Some("password"), false, None, "inherit"))
    ensures IsExcluded(Attributes("INPUT", Some("text"), false, Some("CC-Number"), "inherit"))
    ensures IsExcluded(Attributes("DIV", None, false, Some("x-Card"), "true"))
    ensures !IsExcluded(Attributes("INPUT", Some("text"), false, None, "inherit"))
  {
    assert Lower("password") == "password";
    assert Lower("CC-Number")[0..3] == "cc-";
    assert OccursAt(Lower("CC-Number"), "cc-", 0);
    assert Lower("x-Card")[2..6] == "card";
    assert OccursAt(Lower("x-Card"), "card", 2);
    assert Lower("") == "";
  }

  /** `isEditableElement`. An `input` always has a `type` in the DOM; the
      source would throw on a missing one, which ends the key handler
      without effect, so a missing type counts as not editable. */
  predicate IsEditable(a: Attributes)
    ensures IsEditable(a) && Lower(a.tagName) == "input" ==>
              a.elementType.Some? && Lower(a.elementType.value) != "password"
    ensures IsEditable(a) ==> !a.readOnly || a.contentEditable == "true"
  {
    var tag := Lower(a.tagName);
    if tag == "input" then
      a.elementType.Some? && Lower(a.elementType.value) in TextInputTypes && !a.readOnly
    else if tag == "textarea" then
      !a.readOnly
    else
      a.contentEditable == "true"
  }

  /** Editability does not depend on the letter case of the tag name or
      the type: `isEditableElement` lower-cases both before comparing. */
  lemma EditableIgnoresCase(a: Attributes)
    ensures var t := if a.elementType.Some? then Some(Lower(a.elementType.value)) else None;
            IsEditable(a) == IsEditable(a.(tagName := Lower(a.tagName), elementType := t))
  {
    LowerIsLower(a.tagName);
    if a.elementType.Some? {
      LowerIsLower(a.elementType.value);
    }
  }

  /** An editable field is never a password field, so the exclusion of
      password inputs and the editability test never disagree about one. */
  lemma EditableInputIsNotPassword(a: Attributes)
    requires IsEditable(a)
    requires a.elementType.Some? && Lower(a.elementType.value) == "password"
    ensures Lower(a.tagName) != "input"
    ensures IsExcluded(a)
  {
  }

  /** A keydown event: its `key` and modifier flags. */
  datatype KeyEvent = KeyEvent(key: string, shiftKey: bool, ctrlKey: bool, altKey: bool, metaKey: bool)

  /** Expansion fires for Tab with no modifier held. */
  predicate IsExpandKey(e: KeyEvent)
    ensures IsExpandKey(e) <==> e == KeyEvent("Tab", false, false, false, false)
  {
    e.key == "Tab" && !e.shiftKey && !e.ctrlKey && !e.altKey && !e.metaKey
  }

  /** Undo fires for `z` with Ctrl and no other modifier. */
  predicate IsUndoKey(e: KeyEvent)
    ensures IsUndoKey(e) <==> e == KeyEvent("z", false, true, false, false)
  {
    e.key == "z" && e.ctrlKey && !e.shiftKey && !e.altKey && !e.metaKey
  }

  /** No key press asks for both expansion and undo; both need an exact
      modifier set, so Shift+Tab, Ctrl+Shift+Z and the like do nothing. */
  lemma KeysAreDisjoint(e: KeyEvent)
    ensures !(IsExpandKey(e) && IsUndoKey(e))
    ensures IsExpandKey(e) ==> e == KeyEvent("Tab", false, false, false, false)
    ensures IsUndoKey(e) ==> e == KeyEvent("z", false, true, false, false)
  {
  }
}
