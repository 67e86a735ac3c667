/** The alias-management rules of the popup: the form check of
    `validateForm`, the save of `handleSave` (trim, lower-case, rename),
    the delete of `deleteAlias`, the `editingAlias` bookkeeping of
    `editAlias`/`clearForm`, and the display truncation of
    `renderAliasItem`. The saved aliases are a map from alias to text. */
module AliasManager {
  import opened Wrappers
  import opened Text

  type Aliases = map<string, string>

  /** The popup's own state: the alias being edited, `null` when the form
      creates a new one. */
  datatype Popup = Popup(editingAlias: Option<string>)

  /** What `validateForm` shows: whether the save button is enabled and
      whether the "letters only" error is displayed. */
  datatype FormCheck = FormCheck(saveEnabled: bool, lettersError: bool)

  /** Which message to the background worker rejects, if any. */
  datatype Fault = NoFault | SaveFails | DeleteFails

  /** The outcome of a popup action: the aliases after it, the popup state
      after it, and whether the failure message is shown. */
  datatype Outcome = Outcome(aliases: Aliases, popup: Popup, errorShown: bool)

  /** `validateForm`: saving is possible exactly when the trimmed alias is
      one or more letters and the trimmed text is non-empty; the error
      appears exactly when a non-blank alias holds something other than
      letters. The two never hold together. */
  function ValidateForm(aliasInput: string, textInput: string): (r: FormCheck)
    ensures r.saveEnabled <==> IsLetters(Trim(aliasInput)) && Trim(textInput) != ""
    ensures r.lettersError <==> Trim(aliasInput) != "" && !IsLetters(Trim(aliasInput))
    ensures !(r.saveEnabled && r.lettersError)
  {
    var alias := Trim(aliasInput);
    var text := Trim(textInput);
    FormCheck(|alias| > 0 && |text| > 0 && IsLetters(alias), |alias| > 0 && !IsLetters(alias))
  }

  /** `clearForm` (also what `handleCancel` does): leave editing mode. */
  function ClearForm(p: Popup): (r: Popup)
    ensures r.editingAlias.None?
  {
    Popup(None)
  }

  /** `editAlias`: enter editing mode for `alias`. */
  function EditAlias(p: Popup, alias: string): (r: Popup)
    ensures r.editingAlias == Some(alias)
  {
    Popup(Some(alias))
  }

  /** `handleSave`: the alias is trimmed and lower-cased, the text
      trimmed. Input that fails the form check changes nothing; valid input
      is saved by `SaveAlias`. */
  function HandleSave(p: Popup, aliasInput: string, textInput: string, m: Aliases, fault: Fault): (r: Outcome)
    ensures !IsLetters(Lower(Trim(aliasInput))) || Trim(textInput) == "" ==> r == Outcome(m, p, false)
    ensures IsLetters(Lower(Trim(aliasInput))) && Trim(textInput) != "" ==>
              r == SaveAlias(p, Lower(Trim(aliasInput)), Trim(textInput), m, fault)
  {
    var alias := Lower(Trim(aliasInput));
    var text := Trim(textInput);
    if |alias| == 0 || |text| == 0 || !IsLetters(alias) then Outcome(m, p, false)
    else SaveAlias(p, alias, text, m, fault)
  }

  /** The save of a valid alias: the alias maps to the text and every
      other alias keeps its text. When editing a different (non-empty)
      alias, the old one is deleted after the new one is saved. On success
      the form is cleared. A rejected message shows the error and keeps the
      form; a rejected save changes nothing else. */
  function SaveAlias(p: Popup, alias: string, text: string, m: Aliases, fault: Fault): (r: Outcome)
    ensures fault == SaveFails ==> r == Outcome(m, p, true)
    ensures fault != SaveFails ==> alias in r.aliases && r.aliases[alias] == text
    ensures fault != SaveFails ==> forall k :: k in r.aliases && k != alias ==> k in m && r.aliases[k] == m[k]
    ensures fault != SaveFails ==>
              r.aliases.Keys == m.Keys + {alias}
                                - (if Renames(p, alias) && fault == NoFault then {p.editingAlias.value} else {})
    ensures fault != SaveFails ==> (r.errorShown <==> fault == DeleteFails && Renames(p, alias))
    ensures !r.errorShown ==> r.popup.editingAlias.None?
    ensures r.errorShown ==> r.popup == p
  {
    if fault == SaveFails then Outcome(m, p, true)
    else
      var saved := m[alias := text];
      if Renames(p, alias) then
        if fault == DeleteFails then Outcome(saved, p, true)
        else
          assert fault == NoFault;
          assert saved.Keys == m.Keys + {alias};
          assert (saved - {p.editingAlias.value}).Keys == saved.Keys - {p.editingAlias.value};
          Outcome(saved - {p.editingAlias.value}, ClearForm(p), false)
      else Outcome(saved, ClearForm(p), false)
  }

  /** The save renames: the popup edits a (truthy) alias other than the
      one being saved. */
  predicate Renames(p: Popup, alias: string) {
    p.editingAlias.Some? && p.editingAlias.value != "" && p.editingAlias.value != alias
  }

  /** The save button and the save agree: with working messaging,
      `handleSave` stores the lower-cased trimmed alias and leaves editing
      mode when `validateForm` enables the button, and changes nothing
      when it disables it. */
  lemma SaveEnabledIffSaves(p: Popup, aliasInput: string, textInput: string, m: Aliases)
    ensures var r := HandleSave(p, aliasInput, textInput, m, NoFault);
            && (ValidateForm(aliasInput, textInput).saveEnabled ==>
                  && Lower(Trim(aliasInput)) in r.aliases
                  && r.aliases[Lower(Trim(aliasInput))] == Trim(textInput)
                  && r.popup.editingAlias.None?
                  && !r.errorShown)
            && (!ValidateForm(aliasInput, textInput).saveEnabled ==> r == Outcome(m, p, false))
  {
    LowerKeepsLetters(Trim(aliasInput));
  }

  /** Renaming while editing: the new alias is present with the new text
      and the old alias is gone. */
  lemma RenameMovesAlias(previous: string, alias: string, text: string, m: Aliases)
    requires previous != "" && previous != alias
    ensures var r := SaveAlias(Popup(Some(previous)), alias, text, m, NoFault);
            && r.aliases.Keys == (m.Keys + {alias}) - {previous}
            && r.aliases[alias] == text
            && previous !in r.aliases
  {
  }

  /** Saving the alias being edited under the same name is a plain
      overwrite: no key disappears. */
  lemma SameNameOverwrites(alias: string, text: string, m: Aliases)
    ensures var r := SaveAlias(Popup(Some(alias)), alias, text, m, NoFault);
            r.aliases.Keys == m.Keys + {alias} && r.aliases[alias] == text
  {
  }

  /** `deleteAlias`: nothing happens unless the user confirms; a confirmed
      delete removes exactly that alias, and clears the form only when the
      deleted alias is the one being edited. A rejected message changes
      nothing. */
  function DeleteAlias(p: Popup, alias: string, confirmed: bool, m: Aliases, sendFails: bool): (r: Outcome)
    ensures !confirmed || sendFails ==> r == Outcome(m, p, false)
    ensures confirmed && !sendFails ==>
              && r.aliases.Keys == m.Keys - {alias}
              && (forall k :: k in r.aliases ==> r.aliases[k] == m[k])
              && (r.popup.editingAlias.None? <==> p.editingAlias.None? || p.editingAlias == Some(alias))
              && (p.editingAlias != Some(alias) ==> r.popup == p)
    ensures !r.errorShown
  {
    if !confirmed || sendFails then Outcome(m, p, false)
    else if p.editingAlias == Some(alias) then Outcome(m - {alias}, ClearForm(p), false)
    else Outcome(m - {alias}, p, false)
  }

  /** Deleting the alias just opened for editing leaves editing mode;
      deleting any other alias keeps the form on the edited one. */
  lemma EditThenDelete(p: Popup, edited: string, deleted: string, m: Aliases)
    ensures var r := DeleteAlias(EditAlias(p, edited), deleted, true, m, false);
            r.popup.editingAlias.None? <==> deleted == edited
  {
  }

  /** The display limit of `renderAliasItem`. */
  const DisplayLimit: nat := 100

  /** `renderAliasItem`'s truncation: text longer than the limit shows its
      first 100 characters and an ellipsis; shorter text is shown as is. */
  function Truncate(text: string): (r: string)
    ensures |text| <= DisplayLimit ==> r == text
    ensures |text| > DisplayLimit ==> |r| == DisplayLimit + 3 && r[DisplayLimit..] == "..."
    ensures |r| <= DisplayLimit + 3
    ensures var n := if |r| < DisplayLimit then |r| else DisplayLimit;
            n <= |text| && r[..n] == text[..n]
  {
    if |text| > DisplayLimit then text[..DisplayLimit] + "..." else text
  }

  /** Truncating twice shows the same as truncating once. The shown text
      equals the stored one exactly when it fits the limit, or when it is
      already 100 characters followed by an ellipsis. */
  lemma TruncateIdempotent(text: string)
    ensures Truncate(Truncate(text)) == Truncate(text)
    ensures Truncate(text) == text <==>
              |text| <= DisplayLimit || (|text| == DisplayLimit + 3 && text[DisplayLimit..] == "...")
  {
    if |text| > DisplayLimit {
      var r := Truncate(text);
      assert r[..DisplayLimit] == text[..DisplayLimit];
      assert r[..DisplayLimit] + "..." == r;
    }
  }
}
