/** The expansion engine of the content script: `handleTabExpansion`,
    `handleUndo`, the `focusin` reset and the dispatch in `handleKeyDown`.
    The text and caret of a field are read and written abstractly; the
    answer to the lookup message is a parameter. */
module Expansion {
  import opened Wrappers
  import opened Text
  import opened AliasMatcher
  import opened Elements

  /** The contents of an editable field: its text and its caret offset. */
  datatype Field = Field(text: string, caret: nat)

  /** The DOM never reports a caret beyond the end of the text. */
  predicate ValidField(f: Field) {
    f.caret <= |f.text|
  }

  /** `ExpansionState`: the element expanded last, the text and caret it
      had before the expansion, and the replaced span. */
  datatype Snapshot = Snapshot(
    element: ElementId,
    originalText: string,
    cursorPosition: nat,
    aliasStart: nat,
    aliasEnd: nat)

  /** The page-wide state of the content script: the single `lastExpansion`
      slot, `null` when empty. */
  datatype Session = Session(lastExpansion: Option<Snapshot>)

  /** What the `EXPAND` message resolved to: a response value (a string or
      `null`), or a rejected promise. */
  datatype Reply = Response(value: Option<string>) | ChannelError

  /** The outcome of one handler call: the next session, the text and
      caret written to the target field (if any), and the handler's
      boolean result. */
  datatype Step = Step(session: Session, write: Option<Field>, handled: bool)

  /** The snippet an expansion inserts: the reply only counts when it is
      truthy, so `null`, the empty string and a failed message give none. */
  function Snippet(reply: Reply): (r: Option<string>)
    ensures r.Some? <==> reply.Response? && reply.value.Some? && reply.value.value != ""
    ensures r.Some? ==> r.value == reply.value.value
  {
    if reply.Response? && reply.value.Some? && reply.value.value != "" then reply.value else None
  }

  /** The replacement arithmetic: the span of `m` is replaced by `snippet`
      and the caret lands just after the inserted text. Text outside the
      span is kept, the length changes by the difference in length of the
      span and the snippet. */
  function Splice(text: string, m: AliasMatch, snippet: string): (f: Field)
    requires m.start <= m.end <= |text|
    ensures ValidField(f)
    ensures f.caret == m.start + |snippet|
    ensures |f.text| == |text| - (m.end - m.start) + |snippet|
    ensures forall i :: 0 <= i < m.start ==> f.text[i] == text[i]
    ensures forall i :: 0 <= i < |snippet| ==> f.text[m.start + i] == snippet[i]
    ensures forall i :: m.end <= i < |text| ==> f.text[i - m.end + m.start + |snippet|] == text[i]
  {
    var t := text[..m.start] + snippet + text[m.end..];
    assert t[..m.start] == text[..m.start];
    assert t[m.start..m.start + |snippet|] == snippet;
    assert t[m.start + |snippet|..] == text[m.end..];
    Field(t, m.start + |snippet|)
  }

  /** Splicing can be undone from the result alone: putting the slash and
      the alias back in place of the snippet gives the original text. */
  lemma SpliceInverse(text: string, m: AliasMatch, snippet: string)
    requires m.start < m.end <= |text|
    requires text[m.start] == '/' && text[m.start + 1..m.end] == m.alias
    ensures var f := Splice(text, m, snippet);
            f.text[..m.start] + "/" + m.alias + f.text[f.caret..] == text
  {
    var f := Splice(text, m, snippet);
    assert text[m.start..m.end] == [text[m.start]] + text[m.start + 1..m.end];
    assert text == text[..m.start] + text[m.start..m.end] + text[m.end..];
  }

  /** `handleTabExpansion`: when the text before the caret ends in a
      trigger and the lookup yields a non-empty snippet, the trigger is
      replaced, the pre-expansion text and caret are recorded for undo, and
      the result is true. In every other case nothing is written, the
      session is left as it was, and the result is false. */
  function TabExpansion(s: Session, el: ElementId, f: Field, reply: Reply): (r: Step)
    requires ValidField(f)
    ensures r.handled <==> ExtractAlias(f.text, f.caret).Some? && Snippet(reply).Some?
    ensures !r.handled ==> r == Step(s, None, false)
    ensures r.handled ==>
              var m := ExtractAlias(f.text, f.caret).value;
              var snippet := Snippet(reply).value;
              && r.write.Some?
              && r.write.value.text == f.text[..m.start] + snippet + f.text[f.caret..]
              && r.write.value.caret == m.start + |snippet|
              && r.session.lastExpansion == Some(Snapshot(el, f.text, f.caret, m.start, m.end))
  {
    var found := ExtractAlias(f.text, f.caret);
    if found.None? then Step(s, None, false)
    else
      var snippet := Snippet(reply);
      if snippet.None? then Step(s, None, false)
      else
        var m := found.value;
        Step(Session(Some(Snapshot(el, f.text, f.caret, m.start, m.end))),
             Some(Splice(f.text, m, snippet.value)), true)
  }

  /** `handleUndo`: only the element of the pending snapshot can be
      restored; restoring writes back the recorded text and caret and
      empties the slot. */
  function Undo(s: Session, el: ElementId): (r: Step)
    ensures r.handled <==> s.lastExpansion.Some? && s.lastExpansion.value.element == el
    ensures !r.handled ==> r == Step(s, None, false)
    ensures r.handled ==>
              && r.session.lastExpansion.None?
              && r.write == Some(Field(s.lastExpansion.value.originalText,
                                       s.lastExpansion.value.cursorPosition))
  {
    if s.lastExpansion.None? || s.lastExpansion.value.element != el then Step(s, None, false)
    else
      var snap := s.lastExpansion.value;
      Step(Session(None), Some(Field(snap.originalText, snap.cursorPosition)), true)
  }

  /** The `focusin` listener: any focus change empties the undo slot. */
  function FocusIn(s: Session): (r: Session)
    ensures r.lastExpansion.None?
  {
    Session(None)
  }

  /** `handleKeyDown` on a target element whose field currently holds `f`.
      Elements that are not editable, or are excluded, are ignored before
      anything is read. Tab alone triggers expansion; Ctrl+Z triggers undo;
      every other key is ignored. */
  function KeyDown(s: Session, target: Element, f: Field, e: KeyEvent, reply: Reply): (r: Step)
    requires ValidField(f)
    ensures !IsEditable(target.attrs) || IsExcluded(target.attrs) ==> r == Step(s, None, false)
    ensures !IsExpandKey(e) && !IsUndoKey(e) ==> r == Step(s, None, false)
    ensures IsEditable(target.attrs) && !IsExcluded(target.attrs) && IsExpandKey(e) ==>
              r == TabExpansion(s, target.id, f, reply)
    ensures IsEditable(target.attrs) && !IsExcluded(target.attrs) && IsUndoKey(e) ==>
              r == Undo(s, target.id)
  {
    if !IsEditable(target.attrs) || IsExcluded(target.attrs) then Step(s, None, false)
    else if IsExpandKey(e) then TabExpansion(s, target.id, f, reply)
    else if IsUndoKey(e) then Undo(s, target.id)
    else Step(s, None, false)
  }

  /** Expand-then-undo on the same element restores exactly the text and
      caret from before the expansion and empties the undo slot, so a
      second undo does nothing. */
  lemma ExpandThenUndo(s: Session, el: ElementId, f: Field, reply: Reply)
    requires ValidField(f)
    requires TabExpansion(s, el, f, reply).handled
    ensures var u := Undo(TabExpansion(s, el, f, reply).session, el);
            && u.handled
            && u.write == Some(f)
            && u.session.lastExpansion.None?
            && Undo(u.session, el) == Step(u.session, None, false)
  {
  }

  /** Undo after a focus change does nothing, whatever was expanded before. */
  lemma UndoAfterFocusChange(s: Session, el: ElementId)
    ensures Undo(FocusIn(s), el) == Step(Session(None), None, false)
  {
  }

  /** Undo on any element other than the one expanded last does nothing
      and keeps the snapshot for the right element. */
  lemma UndoOtherElement(s: Session, el: ElementId, f: Field, reply: Reply, other: ElementId)
    requires ValidField(f)
    requires TabExpansion(s, el, f, reply).handled
    requires other != el
    ensures var s1 := TabExpansion(s, el, f, reply).session;
            Undo(s1, other) == Step(s1, None, false)
  {
  }

  /** The round trip through the key handler: Tab on an editable field
      that expands, then Ctrl+Z on the same element, gives back the field
      as it was. */
  lemma KeyDownRoundTrip(s: Session, target: Element, f: Field, reply: Reply, g: Field)
    requires ValidField(f) && ValidField(g)
    requires IsEditable(target.attrs) && !IsExcluded(target.attrs)
    requires KeyDown(s, target, f, KeyEvent("Tab", false, false, false, false), reply).handled
    ensures var s1 := KeyDown(s, target, f, KeyEvent("Tab", false, false, false, false), reply).session;
            KeyDown(s1, target, g, KeyEvent("z", false, true, false, false), reply).write == Some(f)
  {
    ExpandThenUndo(s, target.id, f, reply);
  }

  /** The scenario of the expander: with `demo` resolving to `Hello World`,
      Tab after `Type /demo` gives `Type Hello World` with the caret after
      the snippet, at offset 16. */
  lemma DemoScenario(s: Session, el: ElementId)
    ensures TabExpansion(s, el, Field("Type /demo", 10), Response(Some("Hello World"))).write
            == Some(Field("Type Hello World", 16))
  {
    MatchAtEnd("Type /demo", 5);
    assert "Type /demo"[..5] + "Hello World" + "Type /demo"[10..] == "Type Hello World";
  }

  /** A field without a trigger is never written, whatever the lookup says. */
  lemma NoTriggerNoWrite(s: Session, el: ElementId, reply: Reply)
    ensures TabExpansion(s, el, Field("no trigger here", 15), reply) == Step(s, None, false)
  {
    NoSlashBeforeRun("no trigger here", 15, 10);
  }
}
