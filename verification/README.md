# slash-text-paste, modelled in Dafny

A model of the browser extension that replaces a typed `/alias` with a saved
snippet when Tab is pressed, and proofs about it. It covers four pieces of
the extension:

- **Trigger expansion** (`src/content-script.ts`): `extractAlias`, the splice
  and caret arithmetic of `handleTabExpansion`, the one-slot undo
  (`lastExpansion`, `handleUndo`, the `focusin` reset), `isExcludedElement`,
  `isEditableElement` and the key tests of `handleKeyDown`
  (`matcher.dfy`, `elements.dfy`, `expansion.dfy`).
- **Shortcut store** (`src/background.ts`): `getShortcuts` with its
  `aliases` → `shortcuts` migration, `saveShortcut`, `deleteShortcut`,
  `expandShortcut` and the install-time seeding (`store.dfy`).
- **Alias management** (`src/popup.ts`): the `validateForm` check, the
  trim/lower-case/rename behaviour of `handleSave`, `deleteAlias`, the
  `editingAlias` bookkeeping and the 100-character display truncation
  (`popup.dfy`).
- **Manifest rewrite** (`build.js`): the removal of one leading `dist/` from
  the service worker, content script, popup and icon paths (`manifest.dfy`).

`text.dfy` holds the string operations the source takes from JavaScript
(`toLowerCase`, `trim`, `includes`, `startsWith`, the `[A-Za-z]` class);
`wrappers.dfy` holds `Option`.

Modelling choices:

- A field's contents are a `Field(text, caret)` with `caret <= |text|`;
  elements are an id plus the attributes the content script reads.
- The answer to the `EXPAND` message is a parameter: a response value
  (string or `null`) or a rejected promise. Only a non-empty string expands,
  as `if (expandedText)` demands.
- Storage is a pair of optional maps (`shortcuts`, `aliases`); every helper
  returns the storage it leaves behind together with its value.
- The popup's saves and deletes act on a map of aliases directly, with a
  parameter saying which message, if any, is rejected.
- `toLowerCase` is modelled for ASCII only; `trim` removes the ECMAScript
  white-space and line-terminator characters.

The trigger the content script looks for:

- It is a `/` followed by one or more ASCII letters that end at the caret.
- Nothing is required before the `/`.
- The replaced span includes the `/`.
- For example, expanding `Type /demo` to `Hello World` gives
  `Type Hello World` with the caret at offset 16 (5 + 11).

## Model

| member | source | states |
|---|---|---|
| AliasMatcher.ExtractAlias | src/content-script.ts:104-117 | on a match the span ends at the caret, starts at a `/` exactly one past the alias length back, and the alias is the one or more ASCII letters in between, case kept |
| AliasMatcher.ExtractAliasComplete | src/content-script.ts:104-117 | a match is found iff the text before the caret ends in `/` followed by one or more ASCII letters, with nothing required before the `/`, and the match found is the one at that `/` |
| AliasMatcher.SlashRunIsTrailingRun | src/content-script.ts:107-111 | the slash of any regex match sits right before the maximal trailing letter run, so the match position is unique |
| AliasMatcher.RegexSearch | src/content-script.ts:107 | the left-to-right regex search returns the leftmost position where `\/[A-Za-z]+$` matches, or none when no position matches |
| AliasMatcher.RegexAgreesWithExtract | src/content-script.ts:106-111 | the regex engine's leftmost match and the backward scan agree on whether a match exists and on its start |
| AliasMatcher.NoMatchWhenLastIsNotLetter | src/content-script.ts:107 | a non-letter just before the caret means no match |
| AliasMatcher.NoSlashBeforeRun | src/content-script.ts:107 | letters ending at the caret that follow a character other than `/` give no match |
| AliasMatcher.ValidAliasesAtEnd | src/__tests__/alias-regex.test.ts:6-10 | `Hello /demo`, `Type /test`, `/alias` match with the expected alias and span |
| AliasMatcher.InvalidAliases | src/__tests__/alias-regex.test.ts:12-17 | `/demo123`, `/demo-test`, `/demo_test`, `/123` do not match |
| AliasMatcher.AliasesNotAtEnd | src/__tests__/alias-regex.test.ts:19-22 | a trigger followed by more text does not match |
| AliasMatcher.CasePreserved | src/__tests__/alias-regex.test.ts:24-28 | `/Demo`, `/DEMO`, `/dEmO` match with the alias in its original case |
| AliasMatcher.EmptyAndEdgeCases | src/__tests__/alias-regex.test.ts:30-34 | the empty text, `/` and `Hello /` do not match |
| Elements.ExcludedCharacterization | src/content-script.ts:14-30 | an element is excluded iff its lower-cased type is `password` or its lower-cased autocomplete hint contains `cc-` or `card`; the `email` clause never decides on its own |
| Elements.ExclusionExamples | src/content-script.ts:14-30 | password fields and payment hints in any case are excluded, a plain text input is not |
| Elements.IsExcluded | src/content-script.ts:14-30 | a password input is always excluded; an element with no autocomplete hint and a type other than password never is |
| Elements.IsEditable | src/content-script.ts:33-47 | an editable input never has type `password`, and an editable element is either not read-only or explicitly contentEditable |
| Elements.EditableIgnoresCase | src/content-script.ts:34-38 | editability is the same whatever the letter case of the tag name and the type |
| Elements.EditableInputIsNotPassword | src/content-script.ts:14-47 | an editable element of type `password` is not an input, and it is excluded anyway |
| Elements.IsExpandKey | src/content-script.ts:207 | the expansion key is exactly Tab with no Shift, Ctrl, Alt or Meta |
| Elements.IsUndoKey | src/content-script.ts:216 | the undo key is exactly `z` with Ctrl and no Shift, Alt or Meta |
| Elements.KeysAreDisjoint | src/content-script.ts:207-216 | expansion needs Tab with no modifier, undo needs `z` with Ctrl alone, and no key event is both |
| Expansion.Snippet | src/content-script.ts:158-186 | a reply yields a snippet iff it is a non-empty string; `null`, the empty string and a rejected message yield none |
| Expansion.Splice | src/content-script.ts:174-175 | text before the span and after it is kept, the snippet sits in between, the caret is just after the snippet, and the length changes by snippet length minus span length |
| Expansion.SpliceInverse | src/content-script.ts:174-175 | putting `/alias` back in place of the snippet gives the original text |
| Expansion.TabExpansion | src/content-script.ts:151-187 | the field is rewritten and a snapshot of the old text and caret recorded iff a trigger matches and the reply is a non-empty string; otherwise nothing is written, the session is unchanged and the result is false |
| Expansion.Undo | src/content-script.ts:190-198 | undo acts iff the snapshot exists and belongs to the same element; it writes back the recorded text and caret and empties the slot, otherwise changes nothing |
| Expansion.FocusIn | src/content-script.ts:227-229 | any focus change empties the undo slot |
| Expansion.KeyDown | src/content-script.ts:201-221 | non-editable or excluded targets and other keys change nothing; Tab alone expands, Ctrl+Z alone undoes |
| Expansion.ExpandThenUndo | src/content-script.ts:165-198 | expand then undo on the same element restores exactly the earlier text and caret, and a second undo does nothing |
| Expansion.UndoAfterFocusChange | src/content-script.ts:190-229 | undo after a focus change is a no-op |
| Expansion.UndoOtherElement | src/content-script.ts:191 | undo on an element other than the expanded one is a no-op that keeps the snapshot |
| Expansion.KeyDownRoundTrip | src/content-script.ts:201-221 | Tab that expands followed by Ctrl+Z on the same editable element restores the field |
| Expansion.DemoScenario | src/content-script.ts:174-175 | `Type /demo` with `demo` resolving to `Hello World` becomes `Type Hello World` with the caret at 16 |
| Expansion.NoTriggerNoWrite | src/content-script.ts:152-155 | a field without a trigger is never written, whatever the lookup answers |
| ShortcutStore.GetShortcuts | src/background.ts:27-40 | a present `shortcuts` map is returned and nothing written; otherwise `aliases` is moved to `shortcuts` and returned; otherwise the result is empty |
| ShortcutStore.GetShortcutsSettles | src/background.ts:27-40 | after one read the migration is complete: a second read writes nothing and returns the same map, and after a migrating read no `aliases` entry is left |
| ShortcutStore.SaveShortcut | src/background.ts:42-46 | the lower-cased key maps to the text, the key set grows by that key only, and every other key keeps its value |
| ShortcutStore.DeleteShortcut | src/background.ts:48-52 | only the lower-cased key is removed, other values are kept, and deleting an absent key leaves the mapping unchanged |
| ShortcutStore.ExpandShortcut | src/background.ts:54-57 | the result is the value under the lower-cased key, and none iff the key is absent or its value is empty |
| ShortcutStore.SavePreservesLowerKeys | src/background.ts:42-46 | saving keeps every key lower case |
| ShortcutStore.DeletePreservesLowerKeys | src/background.ts:48-52 | deleting keeps every key lower case |
| ShortcutStore.SaveThenExpand | src/background.ts:42-57 | after saving a non-empty text, every spelling with the same lower case expands to it |
| ShortcutStore.SaveLeavesOtherKeys | src/background.ts:42-57 | saving one key does not change what any other key expands to |
| ShortcutStore.DeleteThenExpand | src/background.ts:48-57 | after a delete, no spelling of the key expands |
| ShortcutStore.OnInstalled | src/background.ts:84-99 | existing `shortcuts` are left alone, legacy `aliases` are migrated, and only an empty store is seeded with `demo` |
| ShortcutStore.InstallAgreesWithRead | src/background.ts:84-99 | on a store holding either entry, install-time migration and the lazy migration of a read leave the same storage and map |
| ShortcutStore.InstallNeverOverwrites | src/background.ts:84-99 | install keeps an existing map; a fresh install expands `DEMO` to the demo text and has lower-case keys |
| AliasManager.ValidateForm | src/popup.ts:50-62 | save is enabled iff the trimmed alias is all letters and the trimmed text is non-empty; the letters error shows iff the trimmed alias is non-empty and not all letters; never both |
| AliasManager.ClearForm | src/popup.ts:113-121 | clearing the form leaves editing mode |
| AliasManager.EditAlias | src/popup.ts:190-198 | editing sets the alias being edited |
| AliasManager.HandleSave | src/popup.ts:79-86 | input whose lower-cased trimmed alias is not all letters, or whose trimmed text is empty, changes nothing; otherwise the lower-cased trimmed alias and the trimmed text are saved |
| AliasManager.SaveAlias | src/popup.ts:87-106 | the alias maps to the text; the key set is the old one plus the alias, minus the renamed-from alias when a rename's delete succeeds; other aliases keep their text; success leaves editing mode; a rejected message shows the error and keeps the form, and a rejected save changes nothing |
| AliasManager.SaveEnabledIffSaves | src/popup.ts:50-92 | with working messaging, save stores the alias and leaves editing mode when the button is enabled, and changes nothing when it is disabled |
| AliasManager.RenameMovesAlias | src/popup.ts:94-99 | saving while editing another alias leaves the new alias present with the new text and the old alias absent |
| AliasManager.SameNameOverwrites | src/popup.ts:88-99 | saving the edited alias under its own name overwrites it and removes no key |
| AliasManager.DeleteAlias | src/popup.ts:200-220 | an unconfirmed or failed delete changes nothing; a confirmed one removes exactly that alias and leaves editing mode iff it was the alias being edited |
| AliasManager.EditThenDelete | src/popup.ts:190-214 | deleting the alias opened for editing leaves editing mode, deleting another keeps it |
| AliasManager.Truncate | src/popup.ts:168 | text over 100 characters shows its first 100 and `...`, other text is unchanged; the result has at most 103 characters and agrees with the text on its first 100 |
| AliasManager.TruncateIdempotent | src/popup.ts:168 | truncating twice equals truncating once, and the shown text equals the stored one iff it fits or already ends in `...` at 100 |
| Text.Trim | src/popup.ts:51-52 | the result is an infix of the input that neither starts nor ends with white space, and everything cut off is white space |
| Text.Lower | src/background.ts:44 | lower-casing keeps the length and maps each character to its ASCII lower case |
| Text.LowerIsLower | src/background.ts:44 | lower-cased text has no upper-case letter, lower-casing is idempotent and leaves lower-case text alone |
| ManifestRewrite.StripDist | build.js:40 | a path starting with `dist/` loses exactly that prefix, any other path is unchanged |
| ManifestRewrite.StripDistOnce | build.js:40 | only one prefix goes: `dist/dist/x` becomes `dist/x` |
| ManifestRewrite.RewriteScripts | build.js:43-49 | every content script keeps its other members, and its `js` list keeps length and order with each path rewritten |
| ManifestRewrite.RewriteIcons | build.js:55-61 | an icon set keeps its sizes and every path is rewritten |
| ManifestRewrite.Rewrite | build.js:37-62 | absent members stay absent, the five path members are rewritten, and every other member is unchanged |
| ManifestRewrite.RewriteKeepsCleanManifest | build.js:37-62 | a manifest with no `dist/`-prefixed path is left unchanged |
| ManifestRewrite.PrefixPaths | build.js:37-62 | prefixing every rewritten path with `dist/` and rewriting gives the manifest back |

## Left out

- Reading and writing the text and caret of a field (`getTextAndCursor`, `setTextAndCursor`): they go through the DOM value, selection and range APIs, so the model takes `(text, caret)` as given and returns the field to write.
- The confirmation toast and its timers: DOM rendering.
- The `preventDefault` after an expansion: it runs after the asynchronous lookup has resolved, an event ordering the model does not represent; `KeyDown` reports only the handler's result.
- Interleavings around the awaited lookup: typing or a focus change while it is pending are not modelled; each expansion is one atomic step.
- The runtime messaging and `chrome.storage` I/O: the store operations are pure functions over the storage record. The message names and fields the content script and the popup send do not match the ones the worker handles, so no property is claimed across that channel.
- The `onMessage` dispatch in the background worker: it only routes to the modelled helpers.
- Keys such as `constructor` that a plain JavaScript object inherits: maps here have only their own entries.
- Sorting the alias list with `localeCompare` and escaping it with the DOM: locale and DOM dependent.
- The rest of the build script (esbuild, file copying, placeholder icons): file-system and tool I/O.
- Unicode case mapping: `toLowerCase` is modelled on ASCII only.
- Text outside the Basic Multilingual Plane (characters JavaScript stores as surrogate pairs): a Dafny `char` is one Unicode scalar value while JavaScript lengths, offsets, the caret and the 100-character limit count UTF-16 code units, so for such text the caret after an expansion and the truncation point differ from the source's.
- ManifestRewrite.Rewrite: does not cover a `default_icon` given as a single string; the build script then iterates over the string's character indices and its assignments have no effect, so the path is kept as is, `dist/` included; the model only represents `default_icon` as a map of sizes to paths.
- Text.Lower: lower-cases ASCII letters only, because full Unicode case mapping is out of scope.
- ManifestRewrite.Rewrite: the members the rewrite never reads are kept as opaque JSON; a malformed manifest (a non-string path, a non-array `js`) that would make the script throw is not representable.
