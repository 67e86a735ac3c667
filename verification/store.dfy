/** The background worker's storage helpers: `getShortcuts` with its
    migration of the legacy `aliases` entry, `saveShortcut`,
    `deleteShortcut`, `expandShortcut`, and the seeding done on install.
    Storage is the pair of optional entries the worker reads. */
module ShortcutStore {
  import opened Wrappers
  import opened Text

  type Shortcuts = map<string, string>

  /** The two storage entries the worker reads; `None` is an absent entry. */
  datatype Storage = Storage(shortcuts: Option<Shortcuts>, aliases: Option<Shortcuts>)

  /** A storage helper's result: the storage after the call and the value
      it returns. */
  datatype Loaded<T> = Loaded(storage: Storage, value: T)

  /** The snippet written on first install. */
  const DemoText: string := "This is a demo expansion text! dYs?"

  /** Every key is lower case, the form `saveShortcut` writes. */
  predicate KeysLower(m: Shortcuts) {
    forall k :: k in m ==> IsLower(k)
  }

  /** `getShortcuts`: a present `shortcuts` entry is returned as is and
      nothing is written; otherwise a present `aliases` entry is moved to
      `shortcuts` and returned; otherwise the result is empty and nothing
      is written. */
  function GetShortcuts(st: Storage): (r: Loaded<Shortcuts>)
    ensures st.shortcuts.Some? ==> r == Loaded(st, st.shortcuts.value)
    ensures st.shortcuts.None? && st.aliases.Some? ==>
              r.value == st.aliases.value
              && r.storage == Storage(Some(st.aliases.value), None)
    ensures st.shortcuts.None? && st.aliases.None? ==> r == Loaded(st, map[])
  {
    if st.shortcuts.Some? then Loaded(st, st.shortcuts.value)
    else if st.aliases.Some? then Loaded(Storage(st.aliases, None), st.aliases.value)
    else Loaded(st, map[])
  }

  /** After one read the migration is done: a second read writes nothing
      and returns the same map, and a read that migrates leaves no
      `aliases` entry. (A store holding both entries keeps its `aliases`:
      the read returns `shortcuts` and writes nothing.) */
  lemma GetShortcutsSettles(st: Storage)
    ensures var r := GetShortcuts(st);
            && GetShortcuts(r.storage) == Loaded(r.storage, r.value)
            && (st.shortcuts.None? && st.aliases.Some? ==> r.storage.aliases.None?)
            && (r.storage.shortcuts.Some? ==> r.storage.shortcuts.value == r.value)
  {
  }

  /** `saveShortcut`: the lower-cased key maps to the text, every other key
      keeps its value, and the legacy entry stays migrated. */
  function SaveShortcut(st: Storage, shortcut: string, text: string): (r: Storage)
    ensures r.shortcuts.Some?
    ensures r.aliases == GetShortcuts(st).storage.aliases
    ensures var before := GetShortcuts(st).value;
            var after := r.shortcuts.value;
            && Lower(shortcut) in after && after[Lower(shortcut)] == text
            && after.Keys == before.Keys + {Lower(shortcut)}
            && forall k :: k in before && k != Lower(shortcut) ==> after[k] == before[k]
  {
    var loaded := GetShortcuts(st);
    loaded.storage.(shortcuts := Some(loaded.value[Lower(shortcut) := text]))
  }

  /** `deleteShortcut`: only the lower-cased key is removed; deleting an
      absent key leaves the mapping as it was. The map is written back in
      every case. */
  function DeleteShortcut(st: Storage, shortcut: string): (r: Storage)
    ensures r.shortcuts.Some?
    ensures r.aliases == GetShortcuts(st).storage.aliases
    ensures var before := GetShortcuts(st).value;
            var after := r.shortcuts.value;
            && after.Keys == before.Keys - {Lower(shortcut)}
            && (forall k :: k in after ==> after[k] == before[k])
            && (Lower(shortcut) !in before ==> after == before)
  {
    var loaded := GetShortcuts(st);
    loaded.storage.(shortcuts := Some(loaded.value - {Lower(shortcut)}))
  }

  /** `expandShortcut`: the value under the lower-cased key, or `null` when
      the key is absent or its value is the (falsy) empty string. Reading
      may perform the migration. */
  function ExpandShortcut(st: Storage, shortcut: string): (r: Loaded<Option<string>>)
    ensures r.storage == GetShortcuts(st).storage
    ensures r.value.Some? <==>
              Lower(shortcut) in GetShortcuts(st).value && GetShortcuts(st).value[Lower(shortcut)] != ""
    ensures r.value.Some? ==> r.value.value == GetShortcuts(st).value[Lower(shortcut)]
  {
    var loaded := GetShortcuts(st);
    var key := Lower(shortcut);
    if key in loaded.value && loaded.value[key] != "" then Loaded(loaded.storage, Some(loaded.value[key]))
    else Loaded(loaded.storage, None)
  }

  /** Saving keeps every key lower case. */
  lemma SavePreservesLowerKeys(st: Storage, shortcut: string, text: string)
    requires KeysLower(GetShortcuts(st).value)
    ensures KeysLower(GetShortcuts(SaveShortcut(st, shortcut, text)).value)
  {
    LowerIsLower(shortcut);
  }

  /** Deleting keeps every key lower case. */
  lemma DeletePreservesLowerKeys(st: Storage, shortcut: string)
    requires KeysLower(GetShortcuts(st).value)
    ensures KeysLower(GetShortcuts(DeleteShortcut(st, shortcut)).value)
  {
  }

  /** Lookup is case-insensitive: after saving a non-empty text under one
      spelling of a key, expanding any spelling with the same lower case
      yields that text. */
  lemma SaveThenExpand(st: Storage, k: string, text: string, k': string)
    requires Lower(k') == Lower(k)
    requires text != ""
    ensures ExpandShortcut(SaveShortcut(st, k, text), k').value == Some(text)
  {
  }

  /** Saving under one key does not change what any other key expands to. */
  lemma SaveLeavesOtherKeys(st: Storage, k: string, text: string, k': string)
    requires Lower(k') != Lower(k)
    ensures ExpandShortcut(SaveShortcut(st, k, text), k').value == ExpandShortcut(st, k').value
  {
  }

  /** After a delete, no spelling of the key expands. */
  lemma DeleteThenExpand(st: Storage, k: string, k': string)
    requires Lower(k') == Lower(k)
    ensures ExpandShortcut(DeleteShortcut(st, k), k').value.None?
  {
  }

  /** The `onInstalled` listener: an existing `shortcuts` entry is left
      alone, a legacy `aliases` entry is migrated, and only a store with
      neither entry is seeded with the demo shortcut. */
  function OnInstalled(st: Storage): (r: Storage)
    ensures st.shortcuts.Some? ==> r == st
    ensures st.shortcuts.None? && st.aliases.Some? ==> r == Storage(st.aliases, None)
    ensures st.shortcuts.None? && st.aliases.None? ==>
              r == Storage(Some(map["demo" := DemoText]), None)
  {
    if st.shortcuts.Some? then st
    else if st.aliases.Some? then Storage(st.aliases, None)
    else Storage(Some(map["demo" := DemoText]), None)
  }

  /** The install-time migration and the lazy one in `getShortcuts` agree:
      on a store that holds either entry, installing first changes neither
      the storage a read leaves behind nor the map it returns. */
  lemma InstallAgreesWithRead(st: Storage)
    requires st.shortcuts.Some? || st.aliases.Some?
    ensures OnInstalled(st) == GetShortcuts(st).storage
    ensures GetShortcuts(OnInstalled(st)).value == GetShortcuts(st).value
  {
  }

  /** Installing seeds only an empty store: whenever the demo entry was not
      there before, some stored mapping was already present and is kept. */
  lemma InstallNeverOverwrites(st: Storage)
    ensures st.shortcuts.Some? ==> GetShortcuts(OnInstalled(st)).value == st.shortcuts.value
    ensures st.shortcuts.None? && st.aliases.Some? ==>
              GetShortcuts(OnInstalled(st)).value == st.aliases.value
    ensures KeysLower(GetShortcuts(OnInstalled(Storage(None, None))).value)
    ensures ExpandShortcut(OnInstalled(Storage(None, None)), "DEMO").value == Some(DemoText)
  {
    assert Lower("DEMO") == "demo";
    assert IsLower("demo");
  }
}
