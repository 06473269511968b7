/** The daemon's command grammar: transcript normalisation and the ordered,
    first-match-wins rule table that turns a normalised utterance into a
    command record, or into no command at all. */
module Parser {
  import opened Common

  // ---------------------------------------------------------------------
  // Character classes of Python's `re` on str patterns, restricted to ASCII
  // ---------------------------------------------------------------------

  /** `\s`: the ASCII characters for which Python's `str.isspace` holds,
      which are space, tab, line feed, vertical tab, form feed, carriage
      return and the four separators 0x1C..0x1F. */
  predicate IsSpace(c: char) {
    c == ' ' || 9 <= c as int <= 13 || 28 <= c as int <= 31
  }

  /** `\w`: letters, digits and the underscore. */
  predicate IsWordChar(c: char) {
    IsLower(c) || IsUpper(c) || IsDigit(c) || c == '_'
  }

  // ---------------------------------------------------------------------
  // normalize_transcript
  // ---------------------------------------------------------------------

  /** A character that may occur after lower-casing and deleting punctuation. */
  predicate LowerWordOrSpace(c: char) {
    IsSpace(c) || (IsWordChar(c) && !IsUpper(c))
  }

  /** A character that may occur in a normalised utterance. */
  predicate NormalChar(c: char) {
    c == ' ' || (IsWordChar(c) && !IsUpper(c))
  }

  predicate AllLowerWordOrSpace(s: string) {
    forall i :: 0 <= i < |s| ==> LowerWordOrSpace(s[i])
  }

  predicate AllNormalChars(s: string) {
    forall i :: 0 <= i < |s| ==> NormalChar(s[i])
  }

  /** No two spaces in a row. */
  predicate SingleSpaced(s: string) {
    forall i :: 0 <= i < |s| - 1 ==> s[i] != ' ' || s[i + 1] != ' '
  }

  /** `re.sub(r'[^\w\s]', '', s)`: delete every character that is neither a
      word character nor whitespace. */
  function StripPunctuation(s: string): (r: string)
    ensures |r| <= |s|
    ensures forall i :: 0 <= i < |r| ==> IsWordChar(r[i]) || IsSpace(r[i])
  {
    if s == [] then []
    else if IsWordChar(s[0]) || IsSpace(s[0]) then [s[0]] + StripPunctuation(s[1..])
    else StripPunctuation(s[1..])
  }

  /** Deleting punctuation introduces no upper-case letter. */
  lemma {:induction false} StripPunctuationKeepsLower(s: string)
    requires forall i :: 0 <= i < |s| ==> !IsUpper(s[i])
    ensures AllLowerWordOrSpace(StripPunctuation(s))
  {
    if s != [] {
      var tail := s[1..];
      assert forall i :: 0 <= i < |tail| ==> tail[i] == s[i + 1];
      StripPunctuationKeepsLower(tail);
      var r, rt := StripPunctuation(s), StripPunctuation(tail);
      if IsWordChar(s[0]) || IsSpace(s[0]) {
        assert r == [s[0]] + rt;
        assert forall i :: 1 <= i < |r| ==> r[i] == rt[i - 1];
      } else {
        assert r == rt;
      }
    }
  }

  /** Deleting punctuation works character by character: it distributes
      over concatenation, and `StripPunctuationChar` gives the single
      character case; together they determine the function. */
  lemma {:induction false} StripPunctuationAppend(a: string, b: string)
    ensures StripPunctuation(a + b) == StripPunctuation(a) + StripPunctuation(b)
  {
    if a == [] {
      assert a + b == b;
    } else {
      assert (a + b)[0] == a[0];
      assert (a + b)[1..] == a[1..] + b;
      StripPunctuationAppend(a[1..], b);
    }
  }

  /** A single character is kept exactly when it is a word character or
      whitespace. */
  lemma StripPunctuationChar(c: char)
    ensures StripPunctuation([c]) == if IsWordChar(c) || IsSpace(c) then [c] else []
  {
    assert [c][1..] == [];
  }

  /** Drops the leading whitespace of `s`; what remains is a suffix of `s`
      that does not start with whitespace. */
  function SkipSpaces(s: string): (r: string)
    ensures |r| <= |s| && r == s[|s| - |r|..]
    ensures r != [] ==> !IsSpace(r[0])
    ensures forall i :: 0 <= i < |s| - |r| ==> IsSpace(s[i])
  {
    if s != [] && IsSpace(s[0]) then SkipSpaces(s[1..]) else s
  }

  /** `re.sub(r'\s+', ' ', s)`: every maximal run of whitespace becomes one
      space. */
  function CollapseSpaces(s: string): (r: string)
    ensures |r| <= |s|
    decreases |s|
  {
    if s == [] then []
    else if IsSpace(s[0]) then [' '] + CollapseSpaces(SkipSpaces(s[1..]))
    else [s[0]] + CollapseSpaces(s[1..])
  }

  /** The result of collapsing is empty exactly when its input is, starts
      with a space exactly when the input starts with whitespace, and
      otherwise starts with the input's first character. */
  lemma CollapseStart(s: string)
    ensures CollapseSpaces(s) == [] <==> s == []
    ensures s != [] ==> (CollapseSpaces(s)[0] == ' ' <==> IsSpace(s[0]))
    ensures s != [] && !IsSpace(s[0]) ==> CollapseSpaces(s)[0] == s[0]
  {
  }

  /** Putting a character before a single-spaced string keeps it single
      spaced unless both the character and the string's head are spaces. */
  lemma ConsSingleSpaced(c: char, r: string)
    requires SingleSpaced(r)
    requires c != ' ' || r == [] || r[0] != ' '
    ensures SingleSpaced([c] + r)
  {
    var cr := [c] + r;
    forall i | 1 <= i < |cr| - 1
      ensures cr[i] != ' ' || cr[i + 1] != ' '
    {
      assert cr[i] == r[i - 1] && cr[i + 1] == r[i];
    }
  }

  /** Collapsing leaves no two spaces in a row. */
  lemma {:induction false} CollapseSingleSpaces(s: string)
    ensures SingleSpaced(CollapseSpaces(s))
    decreases |s|
  {
    if s != [] {
      if IsSpace(s[0]) {
        var tail := SkipSpaces(s[1..]);
        CollapseSingleSpaces(tail);
        CollapseStart(tail);
        ConsSingleSpaced(' ', CollapseSpaces(tail));
      } else {
        var tail := s[1..];
        CollapseSingleSpaces(tail);
        ConsSingleSpaced(s[0], CollapseSpaces(tail));
      }
    }
  }

  lemma SuffixLowerWordOrSpace(s: string, k: nat)
    requires k <= |s| && AllLowerWordOrSpace(s)
    ensures AllLowerWordOrSpace(s[k..])
  {
    assert forall i :: 0 <= i < |s| - k ==> s[k..][i] == s[k + i];
  }

  lemma ConsNormalChars(c: char, r: string)
    requires NormalChar(c) && AllNormalChars(r)
    ensures AllNormalChars([c] + r)
  {
    assert forall i :: 1 <= i <= |r| ==> ([c] + r)[i] == r[i - 1];
  }

  /** Collapsing turns every whitespace character into a plain space. */
  lemma {:induction false} CollapseChars(s: string)
    requires AllLowerWordOrSpace(s)
    ensures AllNormalChars(CollapseSpaces(s))
    decreases |s|
  {
    if s != [] {
      SuffixLowerWordOrSpace(s, 1);
      if IsSpace(s[0]) {
        var skipped := SkipSpaces(s[1..]);
        SuffixLowerWordOrSpace(s[1..], |s[1..]| - |skipped|);
        CollapseChars(skipped);
        ConsNormalChars(' ', CollapseSpaces(skipped));
      } else {
        assert LowerWordOrSpace(s[0]);
        CollapseChars(s[1..]);
        ConsNormalChars(s[0], CollapseSpaces(s[1..]));
      }
    }
  }

  /** Drops the trailing whitespace of `s`; what remains is a prefix of `s`
      that does not end with whitespace. */
  function TrimRight(s: string): (r: string)
    ensures |r| <= |s| && r == s[..|r|]
    ensures r != [] ==> !IsSpace(r[|r| - 1])
    ensures forall i :: |r| <= i < |s| ==> IsSpace(s[i])
  {
    if s != [] && IsSpace(s[|s| - 1]) then TrimRight(s[..|s| - 1]) else s
  }

  /** The number of whitespace characters at the start of `s`. */
  function LeadingSpaces(s: string): (k: nat)
    ensures k <= |s|
    ensures forall i :: 0 <= i < k ==> IsSpace(s[i])
    ensures k < |s| ==> !IsSpace(s[k])
  {
    if s != [] && IsSpace(s[0]) then 1 + LeadingSpaces(s[1..]) else 0
  }

  /** Skipping the leading whitespace drops exactly `LeadingSpaces(s)` characters. */
  lemma {:induction false} SkipSpacesLeading(s: string)
    ensures SkipSpaces(s) == s[LeadingSpaces(s)..]
  {
    if s != [] && IsSpace(s[0]) {
      SkipSpacesLeading(s[1..]);
      assert s[1..][LeadingSpaces(s[1..])..] == s[LeadingSpaces(s)..];
    }
  }

  /** `str.strip()`: drop leading and trailing whitespace. The result is the
      slice of `s` that starts after its leading whitespace run and is
      followed by whitespace only; it has no whitespace at either end, so it
      is exactly `s` with its leading and trailing whitespace removed. */
  function Strip(s: string): (r: string)
    ensures LeadingSpaces(s) + |r| <= |s| && r == s[LeadingSpaces(s)..LeadingSpaces(s) + |r|]
    ensures forall i :: LeadingSpaces(s) + |r| <= i < |s| ==> IsSpace(s[i])
    ensures r != [] ==> !IsSpace(r[0]) && !IsSpace(r[|r| - 1])
    ensures s == [] || (!IsSpace(s[0]) && !IsSpace(s[|s| - 1])) ==> r == s
  {
    SkipSpacesLeading(s);
    var front := SkipSpaces(s);
    TrimRight(front)
  }

  /** `normalize_transcript`: lowercase, delete punctuation, collapse
      whitespace runs to one space, trim. The result is always in normal
      form, and it is the words of the lower-cased, punctuation-free text
      joined by single spaces, as `' '.join(text.split())` would give. */
  function Normalize(transcript: string): (r: string)
    ensures IsNormalized(r)
    ensures r == Join(Words(StripPunctuation(LowerString(transcript))))
  {
    NormalizeStepsNormalize(transcript);
    Strip(CollapseSpaces(StripPunctuation(LowerString(transcript))))
  }

  /** What a normalised utterance looks like: only lower-case word characters
      and single spaces, with no space at either end. */
  predicate IsNormalized(t: string) {
    && AllNormalChars(t)
    && (t != [] ==> t[0] != ' ' && t[|t| - 1] != ' ')
    && SingleSpaced(t)
  }

  /** A substring of a string of normal characters is one too. */
  lemma SliceKeepsNormalChars(s: string, a: nat, b: nat)
    requires a <= b <= |s|
    requires AllNormalChars(s)
    ensures AllNormalChars(s[a..b])
  {
    assert forall i :: 0 <= i < b - a ==> s[a..b][i] == s[a + i];
  }

  /** A substring of a string without double spaces has none either. */
  lemma SliceKeepsSingleSpaces(s: string, a: nat, b: nat)
    requires a <= b <= |s|
    requires SingleSpaced(s)
    ensures SingleSpaced(s[a..b])
  {
    forall i | 0 <= i < b - a - 1 ensures s[a..b][i] != ' ' || s[a..b][i + 1] != ' ' {
      assert s[a..b][i] == s[a + i] && s[a..b][i + 1] == s[a + i + 1];
    }
  }

  /** Stripping a single-spaced string of normal characters normalises it. */
  lemma StripNormalizes(collapsed: string)
    requires AllNormalChars(collapsed) && SingleSpaced(collapsed)
    ensures IsNormalized(Strip(collapsed))
  {
    var front := SkipSpaces(collapsed);
    var t := TrimRight(front);
    var a := |collapsed| - |front|;
    assert t == collapsed[a..a + |t|];
    SliceKeepsNormalChars(collapsed, a, a + |t|);
    SliceKeepsSingleSpaces(collapsed, a, a + |t|);
    if t != [] {
      assert t[0] == front[0];
    }
  }

  /** The four steps of `normalize_transcript` always end in normal form,
      and keep the words of the text left by the first two. */
  lemma NormalizeStepsNormalize(transcript: string)
    ensures IsNormalized(Strip(CollapseSpaces(StripPunctuation(LowerString(transcript)))))
    ensures var kept := StripPunctuation(LowerString(transcript));
      Strip(CollapseSpaces(kept)) == Join(Words(kept))
  {
    var lowered := LowerString(transcript);
    var kept := StripPunctuation(lowered);
    StripPunctuationKeepsLower(lowered);
    CollapseChars(kept);
    CollapseSingleSpaces(kept);
    var n := Strip(CollapseSpaces(kept));
    StripNormalizes(CollapseSpaces(kept));
    WordsStrip(CollapseSpaces(kept));
    WordsCollapse(kept);
    NormalizedIsJoin(n);
  }

  lemma LowerFixesNormalized(t: string)
    requires IsNormalized(t)
    ensures LowerString(t) == t
  {
  }

  lemma {:induction false} StripPunctuationFixes(t: string)
    requires forall i :: 0 <= i < |t| ==> IsWordChar(t[i]) || IsSpace(t[i])
    ensures StripPunctuation(t) == t
  {
    if t != [] {
      StripPunctuationFixes(t[1..]);
    }
  }

  lemma {:induction false} CollapseFixes(t: string)
    requires forall i :: 0 <= i < |t| ==> t[i] == ' ' || !IsSpace(t[i])
    requires SingleSpaced(t)
    ensures CollapseSpaces(t) == t
    decreases |t|
  {
    if t != [] {
      var tail := t[1..];
      assert forall i :: 0 <= i < |tail| ==> tail[i] == t[i + 1];
      CollapseFixes(tail);
      if IsSpace(t[0]) {
        assert tail != [] ==> tail[0] == t[1] && t[1] != ' ';
        assert SkipSpaces(tail) == tail;
      }
    }
  }

  /** A normalised string is a fixed point of every normalisation step. */
  lemma NormalizeFixesNormalized(t: string)
    requires IsNormalized(t)
    ensures Normalize(t) == t
  {
    LowerFixesNormalized(t);
    StripPunctuationFixes(t);
    CollapseFixes(t);
    assert SkipSpaces(t) == t;
    assert TrimRight(t) == t;
  }

  /** `normalize_transcript` is idempotent. */
  lemma NormalizeIdempotent(transcript: string)
    ensures Normalize(Normalize(transcript)) == Normalize(transcript)
  {
    NormalizeFixesNormalized(Normalize(transcript));
  }

  // ---------------------------------------------------------------------
  // Words: `str.split()` and `' '.join`, the reference for normalisation
  // ---------------------------------------------------------------------

  predicate NoSpaces(w: string) {
    forall i :: 0 <= i < |w| ==> !IsSpace(w[i])
  }

  /** Words that `' '.join` can be split back into: non-empty and free of
      whitespace. */
  predicate ProperWords(ws: seq<string>) {
    forall j :: 0 <= j < |ws| ==> ws[j] != [] && NoSpaces(ws[j])
  }

  /** `s.split()`: the maximal runs of non-whitespace characters of `s`, in
      order. A non-whitespace character followed by another joins that
      character's word; one followed by whitespace or the end ends a word. */
  function Words(s: string): (ws: seq<string>)
    ensures ProperWords(ws)
    ensures s != [] && !IsSpace(s[0]) ==> ws != [] && ws[0][0] == s[0]
    decreases |s|
  {
    if s == [] then []
    else if IsSpace(s[0]) then Words(s[1..])
    else if |s| > 1 && !IsSpace(s[1]) then
      var rest := Words(s[1..]);
      var first := [s[0]] + rest[0];
      assert NoSpaces(first) by {
        assert forall i :: 1 <= i < |first| ==> first[i] == rest[0][i - 1];
      }
      [first] + rest[1..]
    else [[s[0]]] + Words(s[1..])
  }

  /** `' '.join(ws)`. */
  function Join(ws: seq<string>): string {
    if ws == [] then []
    else if |ws| == 1 then ws[0]
    else ws[0] + " " + Join(ws[1..])
  }

  /** Leading whitespace separates no words. */
  lemma {:induction false} WordsSkipSpaces(s: string)
    ensures Words(SkipSpaces(s)) == Words(s)
  {
    if s != [] && IsSpace(s[0]) {
      WordsSkipSpaces(s[1..]);
    }
  }

  /** Trailing whitespace separates no words. */
  lemma {:induction false} WordsSnocSpace(s: string, c: char)
    requires IsSpace(c)
    ensures Words(s + [c]) == Words(s)
  {
    var t := s + [c];
    if s == [] {
      assert t[1..] == [];
    } else {
      assert t[0] == s[0] && t[1..] == s[1..] + [c];
      WordsSnocSpace(s[1..], c);
      if |s| > 1 {
        assert t[1] == s[1];
      }
    }
  }

  lemma {:induction false} WordsTrimRight(s: string)
    ensures Words(TrimRight(s)) == Words(s)
  {
    if s != [] && IsSpace(s[|s| - 1]) {
      var init := s[..|s| - 1];
      assert s == init + [s[|s| - 1]];
      WordsSnocSpace(init, s[|s| - 1]);
      WordsTrimRight(init);
    }
  }

  /** `strip()` keeps the words. */
  lemma WordsStrip(s: string)
    ensures Words(Strip(s)) == Words(s)
  {
    WordsSkipSpaces(s);
    WordsTrimRight(SkipSpaces(s));
  }

  /** Collapsing whitespace runs keeps the words. */
  lemma {:induction false} WordsCollapse(s: string)
    ensures Words(CollapseSpaces(s)) == Words(s)
    decreases |s|
  {
    if s != [] {
      var r := CollapseSpaces(s);
      if IsSpace(s[0]) {
        var tail := SkipSpaces(s[1..]);
        assert r == [' '] + CollapseSpaces(tail);
        assert r[1..] == CollapseSpaces(tail);
        WordsCollapse(tail);
        WordsSkipSpaces(s[1..]);
      } else {
        var tail := s[1..];
        assert r == [s[0]] + CollapseSpaces(tail);
        assert r[1..] == CollapseSpaces(tail);
        WordsCollapse(tail);
        CollapseStart(tail);
        if |s| > 1 {
          assert r[1] == CollapseSpaces(tail)[0];
        }
      }
    }
  }

  /** Gluing a character to the first word glues it to the joined text. */
  lemma JoinGlue(c: char, ws: seq<string>)
    requires ws != []
    ensures Join([[c] + ws[0]] + ws[1..]) == [c] + Join(ws)
  {
    var glued := [[c] + ws[0]] + ws[1..];
    assert glued[1..] == ws[1..];
  }

  /** A normalised string is its own words joined by single spaces. */
  lemma {:induction false} NormalizedIsJoin(a: string)
    requires IsNormalized(a)
    ensures Join(Words(a)) == a
    decreases |a|
  {
    if a != [] {
      assert !IsSpace(a[0]);
      if |a| == 1 {
        assert a[1..] == [];
      } else if a[1] != ' ' {
        var tail := a[1..];
        assert !IsSpace(a[1]);
        SliceKeepsNormalChars(a, 1, |a|);
        SliceKeepsSingleSpaces(a, 1, |a|);
        NormalizedIsJoin(tail);
        JoinGlue(a[0], Words(tail));
      } else {
        var tail := a[2..];
        assert a[1..][1..] == tail;
        assert |a| > 2 && a[2] != ' ';
        SliceKeepsNormalChars(a, 2, |a|);
        SliceKeepsSingleSpaces(a, 2, |a|);
        NormalizedIsJoin(tail);
        assert Words(a) == [[a[0]]] + Words(tail);
      }
    }
  }

  /** A word followed by whitespace or nothing is split off whole. */
  lemma {:induction false} WordsPrefix(w: string, u: string)
    requires w != [] && NoSpaces(w)
    requires u == [] || IsSpace(u[0])
    ensures Words(w + u) == [w] + Words(u)
    decreases |w|
  {
    var s := w + u;
    assert s[0] == w[0] && s[1..] == w[1..] + u;
    if |w| == 1 {
      assert s[1..] == u && w == [w[0]];
      if u != [] {
        assert s[1] == u[0];
      }
    } else {
      assert s[1] == w[1];
      WordsPrefix(w[1..], u);
      assert [w[0]] + w[1..] == w;
    }
  }

  /** Splitting the join of proper words gives the words back. */
  lemma {:induction false} WordsOfJoin(ws: seq<string>)
    requires ProperWords(ws)
    ensures Words(Join(ws)) == ws
  {
    if |ws| == 1 {
      WordsPrefix(ws[0], []);
      assert ws[0] + [] == ws[0];
    } else if |ws| > 1 {
      var rest := Join(ws[1..]);
      assert ws[0] + " " + rest == ws[0] + ([' '] + rest);
      WordsPrefix(ws[0], [' '] + rest);
      assert ([' '] + rest)[1..] == rest;
      WordsOfJoin(ws[1..]);
    }
  }

  // ---------------------------------------------------------------------
  // The hint-click pattern `^click\s+([a-z\s]+)$`
  // ---------------------------------------------------------------------

  predicate IsHintChar(c: char) { IsLower(c) || IsSpace(c) }

  predicate AllHintChars(s: string) {
    forall i :: 0 <= i < |s| ==> IsHintChar(s[i])
  }

  /** Lower-case letters and plain spaces only: `[a-z\s]` on a normalised string. */
  predicate LettersAndSpaces(s: string) {
    forall i :: 0 <= i < |s| ==> IsLower(s[i]) || s[i] == ' '
  }

  /** `re.match(r'^click\s+([a-z\s]+)$', t)`, answering the captured group.
      The greedy `\s+` takes the whole whitespace run after "click", except
      that when nothing else follows it gives one character back to the
      group. When it matches, the text is "click", whitespace, and the
      captured group, a non-empty run of letters and whitespace that ends
      the text. */
  function MatchClick(t: string): (g: Option<string>)
    ensures g.Some? ==>
      && g.value != [] && AllHintChars(g.value)
      && |t| > 5 && t[..5] == "click" && IsSpace(t[5])
      && |g.value| <= |t| - 6 && t[|t| - |g.value|..] == g.value
  {
    if |t| < 5 || t[..5] != "click" then None
    else
      var rest := t[5..];
      var k := LeadingSpaces(rest);
      if k == 0 then None
      else
        assert IsSpace(t[5]) by { assert rest[0] == t[5]; }
        if k < |rest| then
          if AllHintChars(rest[k..]) then
            assert rest[k..] == t[|t| - |rest[k..]|..];
            Some(rest[k..])
          else None
        else if k >= 2 then
          var group := rest[k - 1..];
          assert group == t[|t| - 1..] && group == [rest[k - 1]];
          Some(group)
        else None
  }

  /** `group.replace(' ', '')`: delete every space (other whitespace stays). */
  function RemoveSpaces(s: string): (r: string)
    ensures |r| <= |s|
    ensures forall i :: 0 <= i < |r| ==> r[i] != ' '
    ensures AllHintChars(s) ==> AllHintChars(r)
    ensures LettersAndSpaces(s) ==> forall i :: 0 <= i < |r| ==> IsLower(r[i])
    ensures s != [] && s[0] != ' ' ==> r != [] && r[0] == s[0]
  {
    if s == [] then []
    else if s[0] == ' ' then RemoveSpaces(s[1..])
    else [s[0]] + RemoveSpaces(s[1..])
  }

  /** The hint code built from the captured group: spaces removed,
      upper-cased. A group of letters and spaces gives capitals only. */
  function HintCode(group: string): (code: string)
    ensures |code| <= |group|
    ensures forall i :: 0 <= i < |code| ==> code[i] != ' ' && !IsLower(code[i])
    ensures LettersAndSpaces(group) ==> forall i :: 0 <= i < |code| ==> IsUpper(code[i])
  {
    UpperString(RemoveSpaces(group))
  }

  /** Removing spaces works character by character: it distributes over
      concatenation, and `RemoveSpacesChar` gives the single character case. */
  lemma {:induction false} RemoveSpacesAppend(a: string, b: string)
    ensures RemoveSpaces(a + b) == RemoveSpaces(a) + RemoveSpaces(b)
  {
    if a == [] {
      assert a + b == b;
    } else {
      assert (a + b)[0] == a[0];
      assert (a + b)[1..] == a[1..] + b;
      RemoveSpacesAppend(a[1..], b);
    }
  }

  /** A single character is kept exactly when it is not a space. */
  lemma RemoveSpacesChar(c: char)
    ensures RemoveSpaces([c]) == if c == ' ' then [] else [c]
  {
    assert [c][1..] == [];
  }

  /** The hint code of a concatenation is the concatenation of the codes;
      with `HintCodeChar` this determines the code of every group. */
  lemma HintCodeAppend(a: string, b: string)
    ensures HintCode(a + b) == HintCode(a) + HintCode(b)
  {
    RemoveSpacesAppend(a, b);
    UpperAppend(RemoveSpaces(a), RemoveSpaces(b));
  }

  /** A single character contributes nothing if it is a space, and its
      upper-case form otherwise. */
  lemma HintCodeChar(c: char)
    ensures HintCode([c]) == if c == ' ' then [] else [ToUpper(c)]
  {
    RemoveSpacesChar(c);
  }

  // ---------------------------------------------------------------------
  // The rule table and parse_command
  // ---------------------------------------------------------------------

  /** A grammar rule: a list of accepted phrases naming one command with no
      arguments, or the hint-click pattern. */
  datatype Rule = Exact(phrases: seq<string>, name: string) | ClickRule

  /** What a matching rule produces: a command name and its arguments. */
  datatype Match = Match(name: string, args: Args)

  /** A production of the grammar: one of its names, with empty arguments
      unless it is a hint click, whose only argument is `hint`. */
  predicate WellFormed(m: Match) {
    && m.name in CommandNames
    && (m.name != "hint_click" ==> m.args == map[])
    && (m.name == "hint_click" ==> m.args.Keys == {"hint"})
  }

  /** The number of rules `parse_command` tries. */
  const RuleCount: nat := 17

  /** Rule `k` of `parse_command`; they are tried in index order. Rule 15 is
      the hint-click pattern; every other rule accepts some phrases, all of
      them in `ExactPhrases`, and names a grammar command other than
      hint_click. */
  function RuleAt(k: nat): (r: Rule)
    requires k < RuleCount
    ensures r.ClickRule? <==> k == 15
    ensures r.Exact? ==> r.name in CommandNames && r.name != "hint_click"
    ensures r.Exact? ==> r.phrases != [] && forall p :: p in r.phrases ==> p in ExactPhrases
  {
    match k
    case 0 => Exact(["back", "go back"], "back")
    case 1 => Exact(["forward", "go forward"], "forward")
    case 2 => Exact(["reload", "refresh"], "reload")
    case 3 => Exact(["scroll up", "up"], "scroll_up")
    case 4 => Exact(["scroll down", "down"], "scroll_down")
    case 5 => Exact(["page up"], "page_up")
    case 6 => Exact(["page down"], "page_down")
    case 7 => Exact(["jump top", "top"], "jump_top")
    case 8 => Exact(["jump bottom", "bottom"], "jump_bottom")
    case 9 => Exact(["new tab", "open tab"], "new_tab")
    case 10 => Exact(["close tab"], "close_tab")
    case 11 => Exact(["next tab"], "next_tab")
    case 12 => Exact(["previous tab", "prev tab"], "previous_tab")
    case 13 => Exact(["show hints", "hints"], "show_hints")
    case 14 => Exact(["hide hints"], "hide_hints")
    case 15 => ClickRule
    case 16 => Exact(["focus address", "address bar"], "focus_address")
  }

  /** Every name the grammar can produce. */
  const CommandNames: set<string> := {
    "back", "forward", "reload", "scroll_up", "scroll_down", "page_up",
    "page_down", "jump_top", "jump_bottom", "new_tab", "close_tab",
    "next_tab", "previous_tab", "show_hints", "hide_hints", "hint_click",
    "focus_address"
  }

  /** Every phrase some exact-match rule accepts. */
  const ExactPhrases: set<string> := {
    "back", "go back", "forward", "go forward", "reload", "refresh",
    "scroll up", "up", "scroll down", "down", "page up", "page down",
    "jump top", "top", "jump bottom", "bottom", "new tab", "open tab",
    "close tab", "next tab", "previous tab", "prev tab", "show hints",
    "hints", "hide hints", "focus address", "address bar"
  }

  /** What one rule makes of `t`. */
  function ApplyRule(rule: Rule, t: string): Option<Match> {
    match rule
    case Exact(phrases, name) => if t in phrases then Some(Match(name, map[])) else None
    case ClickRule =>
      match MatchClick(t)
      case Some(group) => Some(Match("hint_click", map["hint" := HintCode(group)]))
      case None => None
  }

  /** Tries the rules from index `i` on, in order, and answers the first
      match: a grammar name with empty arguments, or hint_click with the
      single argument `hint`. */
  function FirstMatchFrom(i: nat, t: string): (r: Option<Match>)
    requires i <= RuleCount
    ensures r.Some? ==> WellFormed(r.value)
    decreases RuleCount - i
  {
    if i == RuleCount then None
    else match ApplyRule(RuleAt(i), t)
      case Some(m) => Some(m)
      case None => FirstMatchFrom(i + 1, t)
  }

  /** The rule cascade of `parse_command`: the first rule that accepts `t`. */
  function FirstMatch(t: string): (r: Option<Match>)
    ensures r.Some? ==> WellFormed(r.value)
  {
    FirstMatchFrom(0, t)
  }

  /** None of the first `k` rules accepts `t`. */
  predicate NoEarlierMatch(t: string, k: nat)
    requires k <= RuleCount
  {
    forall j :: 0 <= j < k ==> ApplyRule(RuleAt(j), t).None?
  }

  lemma {:induction false} FirstMatchFromWins(i: nat, t: string, k: nat)
    requires i <= k < RuleCount && ApplyRule(RuleAt(k), t).Some?
    requires forall j :: i <= j < k ==> ApplyRule(RuleAt(j), t).None?
    ensures FirstMatchFrom(i, t) == ApplyRule(RuleAt(k), t)
    decreases k - i
  {
    if i < k {
      FirstMatchFromWins(i + 1, t, k);
    }
  }

  /** First match wins: when rule `k` matches and no earlier rule does, the
      cascade answers what rule `k` produces. */
  lemma FirstMatchWins(t: string, k: nat)
    requires k < RuleCount && ApplyRule(RuleAt(k), t).Some?
    requires NoEarlierMatch(t, k)
    ensures FirstMatch(t) == ApplyRule(RuleAt(k), t)
  {
    FirstMatchFromWins(0, t, k);
  }

  lemma {:induction false} FirstMatchFromReaches(i: nat, t: string, k: nat)
    requires i <= k < RuleCount && ApplyRule(RuleAt(k), t).Some?
    ensures FirstMatchFrom(i, t).Some?
    decreases k - i
  {
    if i < k && ApplyRule(RuleAt(i), t).None? {
      FirstMatchFromReaches(i + 1, t, k);
    }
  }

  /** When some rule accepts `t`, the cascade answers. */
  lemma FirstMatchReaches(t: string, k: nat)
    requires k < RuleCount && ApplyRule(RuleAt(k), t).Some?
    ensures FirstMatch(t).Some?
  {
    FirstMatchFromReaches(0, t, k);
  }

  lemma {:induction false} FirstMatchFromMisses(i: nat, t: string)
    requires i <= RuleCount
    requires forall k :: i <= k < RuleCount ==> ApplyRule(RuleAt(k), t).None?
    ensures FirstMatchFrom(i, t).None?
    decreases RuleCount - i
  {
    if i < RuleCount {
      FirstMatchFromMisses(i + 1, t);
    }
  }

  /** When no rule accepts `t`, the cascade answers no match. */
  lemma FirstMatchMisses(t: string)
    requires forall k :: 0 <= k < RuleCount ==> ApplyRule(RuleAt(k), t).None?
    ensures FirstMatch(t).None?
  {
    FirstMatchFromMisses(0, t);
  }

  lemma {:induction false} MatchedFrom(i: nat, t: string) returns (k: nat)
    requires i <= RuleCount && FirstMatchFrom(i, t).Some?
    ensures i <= k < RuleCount && FirstMatchFrom(i, t) == ApplyRule(RuleAt(k), t)
    ensures forall j :: i <= j < k ==> ApplyRule(RuleAt(j), t).None?
    decreases RuleCount - i
  {
    if ApplyRule(RuleAt(i), t).Some? {
      k := i;
    } else {
      k := MatchedFrom(i + 1, t);
    }
  }

  /** When the cascade answers, it answers the production of the first rule
      that accepts `t`. */
  lemma MatchedRule(t: string) returns (k: nat)
    requires FirstMatch(t).Some?
    ensures k < RuleCount && FirstMatch(t) == ApplyRule(RuleAt(k), t) && NoEarlierMatch(t, k)
  {
    k := MatchedFrom(0, t);
  }

  /** The `meta` part of a command. */
  datatype Meta = Meta(confidence: real, raw: string)

  /** A command record. `id` is left for the sender to fill in. */
  datatype Command = Command(kind: string, id: Option<string>, name: string, args: Args, meta: Meta)

  /** `_make_command`: a command object with `type` "command" and no id. */
  function MakeCommand(name: string, args: Args, confidence: real, raw: string): Command {
    Command("command", None, name, args, Meta(confidence, raw))
  }

  /** `parse_command`: normalise, try the rule table, build the command.
      Every command it returns has `type` "command", no id, the caller's
      confidence, the verbatim transcript as `raw`, a name from the grammar
      and empty arguments unless it is a hint click, whose only argument is
      `hint`. */
  function ParseCommand(transcript: string, confidence: real): (r: Option<Command>)
    ensures r.Some? ==>
      && r.value.kind == "command" && r.value.id == None
      && r.value.meta.confidence == confidence && r.value.meta.raw == transcript
      && WellFormed(Match(r.value.name, r.value.args))
  {
    match FirstMatch(Normalize(transcript))
    case Some(m) => Some(MakeCommand(m.name, m.args, confidence, transcript))
    case None => None
  }

  /** Each rule of the table produces one of the grammar's names, with empty
      arguments for every name but hint_click. */
  lemma RuleProductions(k: nat, t: string)
    requires k < RuleCount && ApplyRule(RuleAt(k), t).Some?
    ensures ApplyRule(RuleAt(k), t).value.name in CommandNames
    ensures k != 15 ==> ApplyRule(RuleAt(k), t).value.name != "hint_click"
                        && ApplyRule(RuleAt(k), t).value.args == map[]
    ensures k == 15 ==> ApplyRule(RuleAt(k), t).value.name == "hint_click"
  {
    if k == 15 {
      assert RuleAt(k) == ClickRule;
    }
  }

  /** The index of the exact-match rule whose phrase list holds `t`. */
  function PhraseRule(t: string): (k: nat)
    requires t in ExactPhrases
    ensures k < RuleCount && RuleAt(k).Exact? && t in RuleAt(k).phrases
  {
    if t in ["back", "go back"] then 0
    else if t in ["forward", "go forward"] then 1
    else if t in ["reload", "refresh"] then 2
    else if t in ["scroll up", "up"] then 3
    else if t in ["scroll down", "down"] then 4
    else if t == "page up" then 5
    else if t == "page down" then 6
    else if t in ["jump top", "top"] then 7
    else if t in ["jump bottom", "bottom"] then 8
    else if t in ["new tab", "open tab"] then 9
    else if t == "close tab" then 10
    else if t == "next tab" then 11
    else if t in ["previous tab", "prev tab"] then 12
    else if t in ["show hints", "hints"] then 13
    else if t == "hide hints" then 14
    else 16
  }

  /** `parse_command` answers None exactly when the normalised transcript is
      none of the exact phrases and does not match the hint-click pattern. */
  lemma ParseCommandNoneIff(transcript: string, confidence: real)
    ensures ParseCommand(transcript, confidence).None? <==>
      (Normalize(transcript) !in ExactPhrases && MatchClick(Normalize(transcript)).None?)
  {
    TableMissIff(Normalize(transcript));
  }

  /** The rule table misses `t` exactly when `t` is none of the exact phrases
      and does not match the hint-click pattern. */
  lemma TableMissIff(t: string)
    ensures FirstMatch(t).None? <==> t !in ExactPhrases && MatchClick(t).None?
  {
    if t in ExactPhrases {
      TableHitsPhrase(t);
    } else if MatchClick(t).Some? {
      TableHitsClick(t);
    } else {
      TableMisses(t);
    }
  }

  lemma TableHitsPhrase(t: string)
    requires t in ExactPhrases
    ensures FirstMatch(t).Some?
  {
    var k := PhraseRule(t);
    FirstMatchReaches(t, k);
  }

  lemma TableHitsClick(t: string)
    requires MatchClick(t).Some?
    ensures FirstMatch(t).Some?
  {
    assert RuleAt(15) == ClickRule;
    FirstMatchReaches(t, 15);
  }

  lemma TableMisses(t: string)
    requires t !in ExactPhrases && MatchClick(t).None?
    ensures FirstMatch(t).None?
  {
    forall k | 0 <= k < RuleCount ensures ApplyRule(RuleAt(k), t).None? {
      var rule := RuleAt(k);
    }
    FirstMatchMisses(t);
  }

  /** On a normalised string the hint-click pattern matches exactly
      "click", one space and a non-empty run of letters and spaces, and
      captures that run. */
  lemma MatchClickNormalized(t: string)
    requires IsNormalized(t)
    ensures MatchClick(t).Some? <==> |t| > 6 && t[..6] == "click " && LettersAndSpaces(t[6..])
    ensures MatchClick(t).Some? ==> MatchClick(t).value == t[6..]
  {
    if |t| >= 6 && t[..5] == "click" {
      var rest := t[5..];
      assert NormalChar(t[5]);
      if t[5] == ' ' {
        assert t[6] != ' ' && NormalChar(t[6]);
        assert rest[1..][0] == t[6];
        assert LeadingSpaces(rest) == 1;
        assert rest[1..] == t[6..];
        assert forall i :: 6 <= i < |t| ==> NormalChar(t[i]);
        assert AllHintChars(t[6..]) <==> LettersAndSpaces(t[6..]);
      }
    }
  }

  /** A hint code made from a normalised capture is a non-empty string of
      upper-case letters. */
  lemma HintCodeLetters(t: string)
    requires IsNormalized(t) && |t| > 6 && t[..6] == "click " && LettersAndSpaces(t[6..])
    ensures HintCode(t[6..]) != []
    ensures forall i :: 0 <= i < |HintCode(t[6..])| ==> IsUpper(HintCode(t[6..])[i])
  {
    assert t[5] == t[..6][5] == ' ';
    assert t[6] != ' ';
  }

  /** No exact phrase starts with "click ". */
  lemma ClickIsNoPhrase(t: string)
    requires |t| > 6 && t[..6] == "click "
    ensures t !in ExactPhrases
  {
    assert t[0] == 'c' && t[1] == 'l' && t[2] == 'i';
  }

  /** A normalised "click" followed by letters and spaces parses as a hint
      click whose only argument `hint` is the captured letters with the spaces
      removed, upper-cased: a non-empty string of capital letters. */
  lemma ParseHintClick(transcript: string, confidence: real)
    requires var t := Normalize(transcript);
      |t| > 6 && t[..6] == "click " && LettersAndSpaces(t[6..])
    ensures var t := Normalize(transcript);
      && ParseCommand(transcript, confidence)
         == Some(MakeCommand("hint_click", map["hint" := HintCode(t[6..])], confidence, transcript))
      && HintCode(t[6..]) != []
      && forall i :: 0 <= i < |HintCode(t[6..])| ==> IsUpper(HintCode(t[6..])[i])
  {
    var t := Normalize(transcript);
    HintCodeLetters(t);
    ClickRuleApplies(t);
    TableClick(t);
  }

  /** The rule cascade answers what the hint-click rule produces for a
      string that starts with "click " and matches the pattern: no earlier
      rule accepts it. */
  lemma TableClick(t: string)
    requires |t| > 6 && t[..6] == "click " && MatchClick(t).Some?
    ensures FirstMatch(t) == ApplyRule(RuleAt(15), t)
  {
    RulesBeforeClickMiss(t);
    assert RuleAt(15) == ClickRule;
    FirstMatchWins(t, 15);
  }

  /** The hint-click rule accepts a normalised "click" followed by letters
      and spaces, and produces the letters without spaces, upper-cased. */
  lemma ClickRuleApplies(t: string)
    requires IsNormalized(t) && |t| > 6 && t[..6] == "click " && LettersAndSpaces(t[6..])
    ensures ApplyRule(RuleAt(15), t) == Some(Match("hint_click", map["hint" := HintCode(t[6..])]))
  {
    MatchClickNormalized(t);
    assert RuleAt(15) == ClickRule;
  }

  /** None of the fifteen rules before the hint-click rule accepts a string
      that starts with "click ". */
  lemma RulesBeforeClickMiss(t: string)
    requires |t| > 6 && t[..6] == "click "
    ensures NoEarlierMatch(t, 15)
  {
    forall j | 0 <= j < 15 ensures ApplyRule(RuleAt(j), t).None? {
      ClickIsNoPhrase(t);
      var rule := RuleAt(j);
    }
  }

  /** A hint click is parsed from nothing but such a transcript. */
  lemma HintClickNeedsPattern(transcript: string, confidence: real)
    requires ParseCommand(transcript, confidence).Some?
    requires ParseCommand(transcript, confidence).value.name == "hint_click"
    ensures var t := Normalize(transcript);
      |t| > 6 && t[..6] == "click " && LettersAndSpaces(t[6..])
  {
    var t := Normalize(transcript);
    MatchClickNormalized(t);
    var k := MatchedRule(t);
    RuleProductions(k, t);
    assert RuleAt(15) == ClickRule;
  }
}
