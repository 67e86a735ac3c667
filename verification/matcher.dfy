/** The trigger matcher of the content script: `extractAlias` applies the
    regular expression `/\/([A-Za-z]+)$/` to the text before the caret. */
module AliasMatcher {
  import opened Wrappers
  import opened Text

  /** A located trigger: `alias` is the letters after the slash, and
      `[start, end)` is the span to replace, slash included. */
  datatype AliasMatch = AliasMatch(alias: string, start: nat, end: nat)

  /** The regex `/\/([A-Za-z]+)$/` matches the text before `end` with its
      slash at index `p`. */
  predicate SlashRunAt(s: string, end: int, p: int) {
    0 <= p && p + 1 < end <= |s| && s[p] == '/'
    && forall i :: p < i < end ==> IsAsciiLetter(s[i])
  }

  /** Length of the maximal run of ASCII letters ending at index `end`. */
  function TrailingLetters(s: string, end: nat): (n: nat)
    requires end <= |s|
    ensures n <= end
    ensures forall i :: end - n <= i < end ==> IsAsciiLetter(s[i])
    ensures n < end ==> !IsAsciiLetter(s[end - n - 1])
  {
    if end == 0 || !IsAsciiLetter(s[end - 1]) then 0
    else TrailingLetters(s, end - 1) + 1
  }

  /** At most one slash position can start a match: the slash is not a
      letter, so it must sit just before the maximal trailing letter run. */
  lemma SlashRunIsTrailingRun(s: string, end: nat, p: int)
    requires SlashRunAt(s, end, p)
    ensures p == end - TrailingLetters(s, end) - 1
  {
  }

  /** `extractAlias(text, cursorPos)`. On a match, the span runs from the
      slash to the caret, the alias is the letters in between with their
      case kept, and nothing is required before the slash. */
  function ExtractAlias(text: string, cursor: nat): (r: Option<AliasMatch>)
    requires cursor <= |text|
    ensures r.Some? ==> r.value.end == cursor
    ensures r.Some? ==> r.value.start == cursor - (|r.value.alias| + 1)
    ensures r.Some? ==> IsLetters(r.value.alias)
    ensures r.Some? ==> text[r.value.start] == '/'
    ensures r.Some? ==> text[r.value.start + 1..cursor] == r.value.alias
  {
    var n := TrailingLetters(text, cursor);
    if 0 < n < cursor && text[cursor - n - 1] == '/' then
      Some(AliasMatch(text[cursor - n..cursor], cursor - n - 1, cursor))
    else
      None
  }

  /** `extractAlias` finds a match exactly when the text before the caret
      ends in a slash followed by one or more letters, and then it is the
      match at that slash: no other span can be reported. */
  lemma {:induction false} ExtractAliasComplete(text: string, cursor: nat)
    requires cursor <= |text|
    ensures ExtractAlias(text, cursor).Some? <==> exists p :: SlashRunAt(text, cursor, p)
    ensures forall p :: SlashRunAt(text, cursor, p) ==>
              ExtractAlias(text, cursor) == Some(AliasMatch(text[p + 1..cursor], p, cursor))
  {
    var r := ExtractAlias(text, cursor);
    var n := TrailingLetters(text, cursor);
    if r.Some? {
      assert SlashRunAt(text, cursor, r.value.start);
    }
    forall p | SlashRunAt(text, cursor, p)
      ensures r == Some(AliasMatch(text[p + 1..cursor], p, cursor))
    {
      SlashRunIsTrailingRun(text, cursor, p);
      assert p == cursor - n - 1;
    }
  }

  /** `String.prototype.match` with a non-global regex reports the leftmost
      position at which the pattern matches. This scans left to right as
      the regex engine does, trying the pattern at every position. */
  method RegexSearch(s: string) returns (r: Option<nat>)
    ensures r.Some? ==> SlashRunAt(s, |s|, r.value)
    ensures r.Some? ==> forall q :: 0 <= q < r.value ==> !SlashRunAt(s, |s|, q)
    ensures r.None? ==> forall q :: !SlashRunAt(s, |s|, q)
  {
    var p := 0;
    while p < |s|
      invariant 0 <= p <= |s|
      invariant forall q :: 0 <= q < p ==> !SlashRunAt(s, |s|, q)
    {
      if s[p] == '/' && p + 1 < |s| {
        var k := p + 1;
        while k < |s| && IsAsciiLetter(s[k])
          invariant p + 1 <= k <= |s|
          invariant forall i :: p < i < k ==> IsAsciiLetter(s[i])
        {
          k := k + 1;
        }
        if k == |s| {
          return Some(p);
        }
        assert !IsAsciiLetter(s[k]);
      }
      p := p + 1;
    }
    return None;
  }

  /** The backward scan of `ExtractAlias` and the regex engine's forward
      search agree on every input. */
  method RegexAgreesWithExtract(text: string, cursor: nat) returns (r: Option<nat>)
    requires cursor <= |text|
    ensures r.Some? <==> ExtractAlias(text, cursor).Some?
    ensures r.Some? ==> r.value == ExtractAlias(text, cursor).value.start
  {
    var before := text[..cursor];
    r := RegexSearch(before);
    ExtractAliasComplete(text, cursor);
    assert forall p :: SlashRunAt(before, |before|, p) <==> SlashRunAt(text, cursor, p);
  }

  /** A text whose end is matched by the regex at slash `p` yields that match. */
  lemma MatchAtEnd(text: string, p: nat)
    requires SlashRunAt(text, |text|, p)
    ensures ExtractAlias(text, |text|) == Some(AliasMatch(text[p + 1..], p, |text|))
  {
    ExtractAliasComplete(text, |text|);
    assert text[p + 1..] == text[p + 1..|text|];
  }

  /** No match when the letters that end at the caret are preceded by a
      character, at index `k`, that is not a slash (nor a letter). */
  lemma NoSlashBeforeRun(text: string, cursor: nat, k: nat)
    requires k < cursor <= |text|
    requires text[k] != '/' && !IsAsciiLetter(text[k])
    requires forall i :: k < i < cursor ==> IsAsciiLetter(text[i])
    ensures ExtractAlias(text, cursor).None?
  {
  }

  /** A non-letter just before the caret rules a match out. */
  lemma NoMatchWhenLastIsNotLetter(text: string, cursor: nat)
    requires 0 < cursor <= |text|
    requires !IsAsciiLetter(text[cursor - 1])
    ensures ExtractAlias(text, cursor).None?
  {
  }

  // The literal cases of the alias regex unit test, one lemma per test
  // block, with the caret at the end of the text.

  lemma ValidAliasesAtEnd()
    ensures ExtractAlias("Hello /demo", 11) == Some(AliasMatch("demo", 6, 11))
    ensures ExtractAlias("Type /test", 10) == Some(AliasMatch("test", 5, 10))
    ensures ExtractAlias("/alias", 6) == Some(AliasMatch("alias", 0, 6))
  {
    MatchAtEnd("Hello /demo", 6);
    MatchAtEnd("Type /test", 5);
    MatchAtEnd("/alias", 0);
  }

  lemma InvalidAliases()
    ensures ExtractAlias("Hello /demo123", 14).None?
    ensures ExtractAlias("Hello /demo-test", 16).None?
    ensures ExtractAlias("Hello /demo_test", 16).None?
    ensures ExtractAlias("Hello /123", 10).None?
  {
    NoMatchWhenLastIsNotLetter("Hello /demo123", 14);
    NoSlashBeforeRun("Hello /demo-test", 16, 11);
    NoSlashBeforeRun("Hello /demo_test", 16, 11);
    NoMatchWhenLastIsNotLetter("Hello /123", 10);
  }

  lemma AliasesNotAtEnd()
    ensures ExtractAlias("Hello /demo world", 17).None?
    ensures ExtractAlias("/demo test", 10).None?
  {
    NoSlashBeforeRun("Hello /demo world", 17, 11);
    NoSlashBeforeRun("/demo test", 10, 5);
  }

  lemma CasePreserved()
    ensures ExtractAlias("/Demo", 5) == Some(AliasMatch("Demo", 0, 5))
    ensures ExtractAlias("/DEMO", 5) == Some(AliasMatch("DEMO", 0, 5))
    ensures ExtractAlias("/dEmO", 5) == Some(AliasMatch("dEmO", 0, 5))
  {
    MatchAtEnd("/Demo", 0);
    MatchAtEnd("/DEMO", 0);
    MatchAtEnd("/dEmO", 0);
  }

  lemma EmptyAndEdgeCases()
    ensures ExtractAlias("", 0).None?
    ensures ExtractAlias("/", 1).None?
    ensures ExtractAlias("Hello /", 7).None?
  {
    NoMatchWhenLastIsNotLetter("/", 1);
    NoMatchWhenLastIsNotLetter("Hello /", 7);
  }
}
