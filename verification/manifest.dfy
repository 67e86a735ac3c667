/** The manifest rewrite of the build script: the paths in
    `background.service_worker`, `content_scripts[i].js`,
    `action.default_popup`, `action.default_icon` and `icons` lose one
    leading `dist/`, through the anchored regex `/^dist\//` without the
    global flag. Everything else in the manifest is copied unchanged. */
module ManifestRewrite {
  import opened Wrappers
  import opened Text

  /** A JSON value, for the manifest members the rewrite never looks at. */
  datatype Json =
    | JNull
    | JBool(b: bool)
    | JNumber(n: int)
    | JString(s: string)
    | JArray(items: seq<Json>)
    | JObject(members: map<string, Json>)

  /** Icon sets map a size to a path. */
  type IconSet = map<string, string>

  datatype Background = Background(serviceWorker: Option<string>, rest: map<string, Json>)

  datatype ContentScript = ContentScript(js: Option<seq<string>>, rest: map<string, Json>)

  datatype Action = Action(defaultPopup: Option<string>, defaultIcon: Option<IconSet>, rest: map<string, Json>)

  /** The parts of `manifest.json` the rewrite touches, with every other
      member of each object kept in `rest`. */
  datatype Manifest = Manifest(
    background: Option<Background>,
    contentScripts: Option<seq<ContentScript>>,
    action: Option<Action>,
    icons: Option<IconSet>,
    rest: map<string, Json>)

  const DistPrefix: string := "dist/"

  /** `path.replace(/^dist\//, "")`: at most one leading `dist/` is cut. */
  function StripDist(path: string): (r: string)
    ensures StartsWith(path, DistPrefix) ==> DistPrefix + r == path
    ensures !StartsWith(path, DistPrefix) ==> r == path
  {
    if StartsWith(path, DistPrefix) then
      assert path == path[..5] + path[5..];
      path[5..]
    else path
  }

  /** Only one prefix is removed: `dist/dist/x` becomes `dist/x`. */
  lemma StripDistOnce(x: string)
    ensures StripDist(DistPrefix + x) == x
    ensures StripDist(DistPrefix + DistPrefix + x) == DistPrefix + x
  {
    assert (DistPrefix + x)[..5] == DistPrefix;
    assert (DistPrefix + DistPrefix + x)[..5] == DistPrefix;
    assert (DistPrefix + DistPrefix + x)[5..] == DistPrefix + x;
  }

  /** Every value of an icon set is rewritten; the sizes stay the same. */
  function RewriteIcons(icons: IconSet): (r: IconSet)
    ensures r.Keys == icons.Keys
    ensures forall size :: size in icons ==> r[size] == StripDist(icons[size])
  {
    map size | size in icons :: StripDist(icons[size])
  }

  /** `cs.js = cs.js.map(...)` for every content script that has `js`:
      the list keeps its length and order. */
  function RewriteScripts(scripts: seq<ContentScript>): (r: seq<ContentScript>)
    ensures |r| == |scripts|
    ensures forall i :: 0 <= i < |scripts| ==>
              && r[i].rest == scripts[i].rest
              && (r[i].js.Some? <==> scripts[i].js.Some?)
              && (scripts[i].js.Some? ==>
                    && |r[i].js.value| == |scripts[i].js.value|
                    && forall j :: 0 <= j < |scripts[i].js.value| ==>
                         r[i].js.value[j] == StripDist(scripts[i].js.value[j]))
  {
    seq(|scripts|, i requires 0 <= i < |scripts| => RewriteScript(scripts[i]))
  }

  function RewriteScript(cs: ContentScript): ContentScript {
    match cs.js
    case None => cs
    case Some(paths) => cs.(js := Some(seq(|paths|, j requires 0 <= j < |paths| => StripDist(paths[j]))))
  }

  /** The rewrite block of the build script. Absent members stay absent
      and members other than the five paths are copied unchanged. */
  function Rewrite(m: Manifest): (r: Manifest)
    ensures r.rest == m.rest
    ensures r.background.Some? <==> m.background.Some?
    ensures m.background.Some? ==>
              && r.background.value.rest == m.background.value.rest
              && (r.background.value.serviceWorker.Some? <==> m.background.value.serviceWorker.Some?)
              && (m.background.value.serviceWorker.Some? ==>
                    r.background.value.serviceWorker.value == StripDist(m.background.value.serviceWorker.value))
    ensures r.contentScripts.Some? <==> m.contentScripts.Some?
    ensures m.contentScripts.Some? ==> r.contentScripts.value == RewriteScripts(m.contentScripts.value)
    ensures r.action.Some? <==> m.action.Some?
    ensures m.action.Some? ==>
              && r.action.value.rest == m.action.value.rest
              && (r.action.value.defaultPopup.Some? <==> m.action.value.defaultPopup.Some?)
              && (m.action.value.defaultPopup.Some? ==>
                    r.action.value.defaultPopup.value == StripDist(m.action.value.defaultPopup.value))
              && (r.action.value.defaultIcon.Some? <==> m.action.value.defaultIcon.Some?)
              && (m.action.value.defaultIcon.Some? ==>
                    r.action.value.defaultIcon.value == RewriteIcons(m.action.value.defaultIcon.value))
    ensures r.icons.Some? <==> m.icons.Some?
    ensures m.icons.Some? ==> r.icons.value == RewriteIcons(m.icons.value)
  {
    Manifest(
      MapOption(m.background, (b: Background) => b.(serviceWorker := MapOption(b.serviceWorker, StripDist))),
      MapOption(m.contentScripts, RewriteScripts),
      MapOption(m.action, (a: Action) =>
        a.(defaultPopup := MapOption(a.defaultPopup, StripDist),
           defaultIcon := MapOption(a.defaultIcon, RewriteIcons))),
      MapOption(m.icons, RewriteIcons),
      m.rest)
  }

  function MapOption<A, B>(o: Option<A>, f: A -> B): (r: Option<B>)
    ensures r.Some? <==> o.Some?
    ensures o.Some? ==> r.value == f(o.value)
  {
    if o.Some? then Some(f(o.value)) else None
  }

  /** A path the rewrite leaves alone. */
  predicate Clean(path: string) {
    !StartsWith(path, DistPrefix)
  }

  /** Every rewritten path of the manifest is clean. */
  predicate AllClean(m: Manifest) {
    && (m.background.Some? && m.background.value.serviceWorker.Some? ==>
          Clean(m.background.value.serviceWorker.value))
    && (m.contentScripts.Some? ==>
          forall i :: 0 <= i < |m.contentScripts.value| ==> ScriptClean(m.contentScripts.value[i]))
    && (m.action.Some? && m.action.value.defaultPopup.Some? ==> Clean(m.action.value.defaultPopup.value))
    && (m.action.Some? && m.action.value.defaultIcon.Some? ==> IconsClean(m.action.value.defaultIcon.value))
    && (m.icons.Some? ==> IconsClean(m.icons.value))
  }

  predicate ScriptClean(cs: ContentScript) {
    cs.js.Some? ==> forall j :: 0 <= j < |cs.js.value| ==> Clean(cs.js.value[j])
  }

  predicate IconsClean(icons: IconSet) {
    forall size :: size in icons ==> Clean(icons[size])
  }

  /** A manifest whose paths carry no `dist/` prefix passes through the
      rewrite unchanged. */
  lemma {:induction false} RewriteKeepsCleanManifest(m: Manifest)
    requires AllClean(m)
    ensures Rewrite(m) == m
  {
    if m.background.Some? {
      var b := m.background.value;
      assert Rewrite(m).background.value == b;
    }
    if m.contentScripts.Some? {
      var cs := m.contentScripts.value;
      var r := Rewrite(m).contentScripts.value;
      forall i | 0 <= i < |cs|
        ensures r[i] == cs[i]
      {
        assert ScriptClean(cs[i]);
        if cs[i].js.Some? {
          assert r[i].js.value == cs[i].js.value;
        }
      }
      assert r == cs;
    }
    if m.action.Some? {
      var a := m.action.value;
      if a.defaultIcon.Some? {
        assert RewriteIcons(a.defaultIcon.value) == a.defaultIcon.value;
      }
      assert Rewrite(m).action.value == a;
    }
    if m.icons.Some? {
      assert RewriteIcons(m.icons.value) == m.icons.value;
    }
  }

  /** A manifest written against the repository root, where every path
      starts with `dist/`, becomes the manifest of the `dist` directory:
      the rewrite gives back exactly the paths without that prefix. */
  function PrefixPaths(m: Manifest): (r: Manifest)
    ensures Rewrite(r) == m
  {
    var p := (path: string) => DistPrefix + path;
    var pi := (icons: IconSet) => map size | size in icons :: DistPrefix + icons[size];
    var r := Manifest(
      MapOption(m.background, (b: Background) => b.(serviceWorker := MapOption(b.serviceWorker, p))),
      MapOption(m.contentScripts, (cs: seq<ContentScript>) =>
        seq(|cs|, i requires 0 <= i < |cs| =>
          cs[i].(js := MapOption(cs[i].js, (paths: seq<string>) =>
            seq(|paths|, j requires 0 <= j < |paths| => DistPrefix + paths[j]))))),
      MapOption(m.action, (a: Action) =>
        a.(defaultPopup := MapOption(a.defaultPopup, p), defaultIcon := MapOption(a.defaultIcon, pi))),
      MapOption(m.icons, pi),
      m.rest);
    RewriteUndoesPrefix(m, r);
    r
  }

  lemma RewriteUndoesPrefix(m: Manifest, r: Manifest)
    requires r.rest == m.rest
    requires r.background.Some? <==> m.background.Some?
    requires m.background.Some? ==>
               && r.background.value.rest == m.background.value.rest
               && (r.background.value.serviceWorker.Some? <==> m.background.value.serviceWorker.Some?)
               && (m.background.value.serviceWorker.Some? ==>
                     r.background.value.serviceWorker.value == DistPrefix + m.background.value.serviceWorker.value)
    requires r.contentScripts.Some? <==> m.contentScripts.Some?
    requires m.contentScripts.Some? ==>
               && |r.contentScripts.value| == |m.contentScripts.value|
               && forall i :: 0 <= i < |m.contentScripts.value| ==>
                    PrefixedScript(m.contentScripts.value[i], r.contentScripts.value[i])
    requires r.action.Some? <==> m.action.Some?
    requires m.action.Some? ==>
               && r.action.value.rest == m.action.value.rest
               && (r.action.value.defaultPopup.Some? <==> m.action.value.defaultPopup.Some?)
               && (m.action.value.defaultPopup.Some? ==>
                     r.action.value.defaultPopup.value == DistPrefix + m.action.value.defaultPopup.value)
               && (r.action.value.defaultIcon.Some? <==> m.action.value.defaultIcon.Some?)
               && (m.action.value.defaultIcon.Some? ==>
                     PrefixedIcons(m.action.value.defaultIcon.value, r.action.value.defaultIcon.value))
    requires r.icons.Some? <==> m.icons.Some?
    requires m.icons.Some? ==> PrefixedIcons(m.icons.value, r.icons.value)
    ensures Rewrite(r) == m
  {
    if m.background.Some? && m.background.value.serviceWorker.Some? {
      StripDistOnce(m.background.value.serviceWorker.value);
    }
    if m.contentScripts.Some? {
      var cs := m.contentScripts.value;
      var rs := RewriteScripts(r.contentScripts.value);
      forall i | 0 <= i < |cs|
        ensures rs[i] == cs[i]
      {
        assert PrefixedScript(cs[i], r.contentScripts.value[i]);
        if cs[i].js.Some? {
          var paths := cs[i].js.value;
          forall j | 0 <= j < |paths|
            ensures rs[i].js.value[j] == paths[j]
          {
            StripDistOnce(paths[j]);
          }
          assert rs[i].js.value == paths;
        }
      }
      assert rs == cs;
    }
    if m.action.Some? {
      var a := m.action.value;
      if a.defaultPopup.Some? {
        StripDistOnce(a.defaultPopup.value);
      }
      if a.defaultIcon.Some? {
        IconsRoundTrip(a.defaultIcon.value, r.action.value.defaultIcon.value);
      }
    }
    if m.icons.Some? {
      IconsRoundTrip(m.icons.value, r.icons.value);
    }
  }

  predicate PrefixedScript(cs: ContentScript, r: ContentScript) {
    && r.rest == cs.rest
    && (r.js.Some? <==> cs.js.Some?)
    && (cs.js.Some? ==>
          && |r.js.value| == |cs.js.value|
          && forall j :: 0 <= j < |cs.js.value| ==> r.js.value[j] == DistPrefix + cs.js.value[j])
  }

  predicate PrefixedIcons(icons: IconSet, r: IconSet) {
    r.Keys == icons.Keys && forall size :: size in icons ==> r[size] == DistPrefix + icons[size]
  }

  lemma IconsRoundTrip(icons: IconSet, r: IconSet)
    requires PrefixedIcons(icons, r)
    ensures RewriteIcons(r) == icons
  {
    forall size | size in icons
      ensures RewriteIcons(r)[size] == icons[size]
    {
      StripDistOnce(icons[size]);
    }
  }
}
