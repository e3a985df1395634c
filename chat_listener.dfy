/**
 * listeners/ChatListener.java: deciding whether a chat line is a question for
 * the AI helper.
 *
 * The regular expressions are modelled by what java.util.regex does with them:
 * `tagPattern` (the quoted tag followed by `\s*`, case-insensitive) by StripTag,
 * QUESTION_PATTERN `.*\?\s*$` under `matches()` by MatchesQuestionPattern, and
 * `replaceAll("\\s+", " ")` by CollapseSpaces. Case-insensitivity is ASCII-only.
 */
module Chat {
  import opened JavaLang

  // ---------------------------------------------------------------------------
  // Tag removal

  /** `tag` occurs, ignoring ASCII case, at the very start of s. */
  predicate TagAtStart(s: string, tag: string) {
    |tag| <= |s| && Lower(s[..|tag|]) == Lower(tag)
  }

  /**
   * `Pattern.compile(quote(tag) [+ "\\s*"], CASE_INSENSITIVE).matcher(s).replaceAll("")`:
   * scan left to right; at a match drop the tag (and, with `eatSpaces`, the
   * whitespace run after it); an empty match keeps the next char and moves on.
   */
  function StripTag(s: string, tag: string, eatSpaces: bool): (r: string)
    ensures |r| <= |s|
    decreases |s|
  {
    if s == [] then []
    else if TagAtStart(s, tag) then
      var rest := if eatSpaces then DropSpaces(s[|tag|..]) else s[|tag|..];
      if |rest| == |s| then [s[0]] + StripTag(s[1..], tag, eatSpaces)
      else StripTag(rest, tag, eatSpaces)
    else [s[0]] + StripTag(s[1..], tag, eatSpaces)
  }

  /** A tag at the start of s is a tag occurrence in s. */
  lemma LeadingOccurrence(s: string, tag: string)
    requires TagAtStart(s, tag)
    ensures OccursAt(Lower(s), Lower(tag), 0)
  {
    assert Lower(s)[..|tag|] == Lower(s[..|tag|]);
  }

  /** A tag occurrence in the tail of s is one in s, one place further on. */
  lemma TailOccurrence(s: string, t: string, i: nat)
    requires s != [] && OccursAt(Lower(s[1..]), t, i)
    ensures OccursAt(Lower(s), t, i + 1)
  {
    var ls := Lower(s);
    var lt := Lower(s[1..]);
    assert ls[i + 1..i + 1 + |t|] == lt[i..i + |t|];
  }

  /** A message without the tag anywhere (ignoring case) passes through unchanged. */
  lemma {:induction false} UntaggedUnchanged(s: string, tag: string, eatSpaces: bool)
    requires !Contains(Lower(s), Lower(tag))
    ensures StripTag(s, tag, eatSpaces) == s
    decreases |s|
  {
    if s != [] {
      if TagAtStart(s, tag) {
        LeadingOccurrence(s, tag);
      }
      if Contains(Lower(s[1..]), Lower(tag)) {
        var i: nat :| i <= |s[1..]| && OccursAt(Lower(s[1..]), Lower(tag), i);
        TailOccurrence(s, Lower(tag), i);
      }
      UntaggedUnchanged(s[1..], tag, eatSpaces);
      assert [s[0]] + s[1..] == s;
    }
  }

  /** A leading tag, any case, and the whitespace after it are removed; the rest is scanned on. */
  lemma {:induction false} LeadingTagRemoved(tag: string, typed: string, w: string, q: string)
    requires tag != [] && |typed| == |tag| && Lower(typed) == Lower(tag)
    requires AllRegexSpace(w) && (q == [] || !IsRegexSpace(q[0]))
    ensures StripTag(typed + w + q, tag, true) == StripTag(q, tag, true)
  {
    var s := typed + w + q;
    assert s[..|tag|] == typed;
    assert s[|tag|..] == w + q;
    DropSpacesPrefix(w, q);
  }

  /** "@Helper  how do I craft?" gives "how do I craft?" when the rest holds no tag. */
  lemma {:induction false} TaggedQuestion(tag: string, w: string, q: string)
    requires tag != [] && AllRegexSpace(w) && (q == [] || !IsRegexSpace(q[0]))
    requires !Contains(Lower(q), Lower(tag))
    ensures StripTag(tag + w + q, tag, true) == q
  {
    LeadingTagRemoved(tag, tag, w, q);
    UntaggedUnchanged(q, tag, true);
  }

  /** The chars of s that are not `\s`, in order. */
  function RemoveSpaces(s: string): (r: string)
    ensures forall i | 0 <= i < |r| :: !IsRegexSpace(r[i])
    decreases |s|
  {
    if s == [] then [] else (if IsRegexSpace(s[0]) then [] else [s[0]]) + RemoveSpaces(s[1..])
  }

  lemma {:induction false} RemoveSpacesSkipsRun(s: string)
    ensures RemoveSpaces(DropSpaces(s)) == RemoveSpaces(s)
    decreases |s|
  {
    if s != [] && IsRegexSpace(s[0]) {
      RemoveSpacesSkipsRun(s[1..]);
    }
  }

  /** With an empty tag the pattern is just `\s*`: every whitespace char of the message disappears. */
  lemma {:induction false} EmptyTagStripsAllWhitespace(s: string)
    ensures StripTag(s, "", true) == RemoveSpaces(s)
    decreases |s|
  {
    if s != [] {
      assert TagAtStart(s, "");
      assert s[|""|..] == s;
      var rest := DropSpaces(s);
      if |rest| == |s| {
        assert rest == s;
        StripEmptyTagShorter(s);
      } else {
        EmptyTagStripsAllWhitespace(rest);
        RemoveSpacesSkipsRun(s);
      }
    }
  }

  lemma {:induction false} StripEmptyTagShorter(s: string)
    requires s != [] && DropSpaces(s) == s
    ensures StripTag(s, "", true) == [s[0]] + StripTag(s[1..], "", true)
    ensures RemoveSpaces(s) == [s[0]] + RemoveSpaces(s[1..])
    ensures StripTag(s[1..], "", true) == RemoveSpaces(s[1..])
    decreases |s|, 0
  {
    assert s[|""|..] == s;
    EmptyTagStripsAllWhitespace(s[1..]);
  }

  // ---------------------------------------------------------------------------
  // QUESTION_PATTERN

  predicate NoLineTerminator(s: string) {
    forall i | 0 <= i < |s| :: !IsLineTerminator(s[i])
  }

  /**
   * `.*\?\s*$` matched against the whole message: some `?` preceded only by chars
   * `.` accepts (no line terminator) and followed only by `\s` chars.
   */
  predicate MatchesQuestionPattern(m: string) {
    exists k | 0 <= k < |m| :: m[k] == '?' && NoLineTerminator(m[..k]) && AllRegexSpace(m[k + 1..])
  }

  /** On a trimmed message the pattern means: ends with `?`, with no line break before it. */
  lemma QuestionPatternOnTrimmed(m: string)
    requires m != [] && !IsTrimmable(m[|m| - 1])
    ensures MatchesQuestionPattern(m) <==> m[|m| - 1] == '?' && NoLineTerminator(m[..|m| - 1])
  {
    if MatchesQuestionPattern(m) {
      var k :| 0 <= k < |m| && m[k] == '?' && NoLineTerminator(m[..k]) && AllRegexSpace(m[k + 1..]);
      if k + 1 < |m| {
        assert IsRegexSpace(m[k + 1..][|m| - k - 2]);
        RegexSpaceIsTrimmable(m[|m| - 1]);
      }
    }
    if m[|m| - 1] == '?' && NoLineTerminator(m[..|m| - 1]) {
      assert AllRegexSpace(m[|m|..]);
    }
  }

  /** A question mark at the end of the second line is not detected: `.` stops at the line break. */
  lemma MultiLineNotDetected()
    ensures !MatchesQuestionPattern("why\nnot?")
  {
    var m := "why\nnot?";
    QuestionPatternOnTrimmed(m);
    assert IsLineTerminator(m[..|m| - 1][3]);
  }

  // ---------------------------------------------------------------------------
  // onAsyncChat, lines 54-128

  /** The listener's own configuration, read once when it is built: `chat.tag` and `chat.auto_detect_questions`. */
  datatype ChatConfig = ChatConfig(tag: string, autoDetect: bool)

  datatype ChatDecision =
    | Ignored                    // blank, neither tagged nor detected, or an empty question
    | TooShort                   // fewer than 3 chars: dropped silently
    | TooLong                    // more than 500 chars: the "too long" message
    | NotPermitted               // no `aihelper.ask`
    | Dispatched(question: string)

  /** The question the message activates, if any: the tag has priority over auto-detection. */
  function Activated(m: string, cfg: ChatConfig): Option<string> {
    if Contains(Lower(m), Lower(cfg.tag)) then Some(Trim(StripTag(m, cfg.tag, true)))
    else if cfg.autoDetect && MatchesQuestionPattern(m) then Some(m)
    else None
  }

  /** Lines 90-115: what happens to an activated question. */
  function Decide(activated: Option<string>, hasPermission: bool): (d: ChatDecision)
    ensures d.Dispatched? <==> activated.Some? && 3 <= |activated.value| <= 500 && hasPermission
    ensures d.Dispatched? ==> d.question == activated.value
    ensures d == TooShort <==> activated.Some? && 0 < |activated.value| < 3
    ensures d == TooLong <==> activated.Some? && |activated.value| > 500
    ensures d == NotPermitted <==> activated.Some? && 3 <= |activated.value| <= 500 && !hasPermission
  {
    match activated
    case None => Ignored
    case Some(q) =>
      if q == [] then Ignored
      else if |q| < 3 then TooShort
      else if |q| > 500 then TooLong
      else if !hasPermission then NotPermitted
      else Dispatched(q)
  }

  function OnAsyncChat(message: Option<string>, cfg: ChatConfig, hasPermission: bool): (d: ChatDecision)
    ensures d.Dispatched? ==> 3 <= |d.question| <= 500 && hasPermission
    ensures message.None? || IsBlank(message.value) ==> d == Ignored
    ensures d.Dispatched? ==> Activated(Trim(message.value), cfg) == Some(d.question)
  {
    if message.None? || Trim(message.value) == [] then Ignored
    else Decide(Activated(Trim(message.value), cfg), hasPermission)
  }

  /** A tagged message is handled the same whether auto-detection is on or off. */
  lemma TagTakesPriority(message: string, cfg: ChatConfig, hasPermission: bool, autoDetect: bool)
    requires Contains(Lower(Trim(message)), Lower(cfg.tag))
    ensures OnAsyncChat(Some(message), cfg.(autoDetect := autoDetect), hasPermission)
         == OnAsyncChat(Some(message), cfg, hasPermission)
  {
    var m := Trim(message);
    var q := Trim(StripTag(m, cfg.tag, true));
    assert Activated(m, cfg.(autoDetect := autoDetect)) == Some(q);
    assert Activated(m, cfg) == Some(q);
  }

  /** With auto-detection off, an untagged message triggers nothing. */
  lemma UntaggedIgnoredWithoutAutoDetect(message: string, cfg: ChatConfig, hasPermission: bool)
    requires !cfg.autoDetect && !Contains(Lower(Trim(message)), Lower(cfg.tag))
    ensures OnAsyncChat(Some(message), cfg, hasPermission) == Ignored
  {
  }

  /** An untagged one-line question of 3..500 chars is dispatched as the trimmed message itself. */
  lemma {:induction false} AutoDetectedQuestionDispatched(message: string, cfg: ChatConfig)
    requires cfg.autoDetect && !Contains(Lower(Trim(message)), Lower(cfg.tag))
    requires var m := Trim(message); 3 <= |m| <= 500 && m[|m| - 1] == '?' && NoLineTerminator(m[..|m| - 1])
    ensures OnAsyncChat(Some(message), cfg, true) == Dispatched(Trim(message))
  {
    QuestionPatternOnTrimmed(Trim(message));
  }

  /** Activated questions are dispatched exactly when they are 3..500 chars long and the player may ask. */
  lemma LengthGate(message: string, cfg: ChatConfig, hasPermission: bool)
    requires Trim(message) != [] && Activated(Trim(message), cfg).Some?
    ensures var q := Activated(Trim(message), cfg).value;
      var d := OnAsyncChat(Some(message), cfg, hasPermission);
      && (d.Dispatched? <==> 3 <= |q| <= 500 && hasPermission)
      && (d == TooShort <==> 0 < |q| < 3)
      && (d == TooLong <==> |q| > 500)
  {
    assert OnAsyncChat(Some(message), cfg, hasPermission) == Decide(Activated(Trim(message), cfg), hasPermission);
  }

  // ---------------------------------------------------------------------------
  // extractQuestionFromTaggedMessage

  /** `replaceAll("\\s+", " ")`: every maximal `\s` run becomes one space. */
  function CollapseSpaces(s: string): (r: string)
    ensures r == [] <==> s == []
    ensures r != [] ==> (IsRegexSpace(r[0]) <==> IsRegexSpace(s[0]))
    ensures forall i | 0 <= i < |r| && IsRegexSpace(r[i]) :: r[i] == ' '
    ensures forall i | 0 <= i < |r| - 1 :: !(IsRegexSpace(r[i]) && IsRegexSpace(r[i + 1]))
    decreases |s|
  {
    if s == [] then []
    else if IsRegexSpace(s[0]) then " " + CollapseSpaces(DropSpaces(s))
    else [s[0]] + CollapseSpaces(s[1..])
  }

  /** Collapsing keeps every other char, in order. */
  lemma {:induction false} CollapseKeepsText(s: string)
    ensures RemoveSpaces(CollapseSpaces(s)) == RemoveSpaces(s)
    decreases |s|
  {
    if s != [] {
      var r := CollapseSpaces(s);
      if IsRegexSpace(s[0]) {
        CollapseKeepsText(DropSpaces(s));
        RemoveSpacesSkipsRun(s);
        assert r[1..] == CollapseSpaces(DropSpaces(s));
      } else {
        CollapseKeepsText(s[1..]);
        assert r[1..] == CollapseSpaces(s[1..]);
      }
    }
  }

  /** Collapsing twice is collapsing once. */
  lemma {:induction false} CollapseIdempotent(s: string)
    ensures CollapseSpaces(CollapseSpaces(s)) == CollapseSpaces(s)
    decreases |s|
  {
    if s != [] {
      var r := CollapseSpaces(s);
      if IsRegexSpace(s[0]) {
        var t := CollapseSpaces(DropSpaces(s));
        CollapseIdempotent(DropSpaces(s));
        assert r == " " + t;
        assert DropSpaces(r) == t by {
          assert r[1..] == t;
          assert DropSpaces(r[1..]) == t;
        }
      } else {
        CollapseIdempotent(s[1..]);
        assert r[1..] == CollapseSpaces(s[1..]);
      }
    }
  }

  /**
   * extractQuestionFromTaggedMessage: drop every case-insensitive tag occurrence
   * (no `\s*` here), trim, then collapse whitespace runs.
   */
  function ExtractQuestionFromTaggedMessage(message: string, tag: string): (r: string)
    ensures forall i | 0 <= i < |r| - 1 :: !(IsRegexSpace(r[i]) && IsRegexSpace(r[i + 1]))
    ensures r == [] <==> IsBlank(StripTag(message, tag, false))
  {
    CollapseSpaces(Trim(StripTag(message, tag, false)))
  }

  /** An empty tag matches the empty string everywhere and removes nothing. */
  lemma {:induction false} EmptyTagRemovesNothing(s: string)
    ensures StripTag(s, "", false) == s
    decreases |s|
  {
    if s != [] {
      assert TagAtStart(s, "");
      assert s[|""|..] == s;
      EmptyTagRemovesNothing(s[1..]);
    }
  }

  // ---------------------------------------------------------------------------
  // looksLikeQuestion

  const QuestionWords: seq<string> := [
    "come", "cosa", "dove", "quando", "perché", "perchè", "chi", "quale", "quanto", "quanti",
    "how", "what", "where", "when", "why", "who", "which", "how much", "how many"]

  /** `startsWith(word + " ") || contains(" " + word + " ")`. */
  predicate WordCue(m: string, w: string) {
    StartsWith(m, w + " ") || Contains(m, " " + w + " ")
  }

  /** The heuristic on the lower-cased, trimmed message. */
  predicate LooksInterrogative(m: string) {
    EndsWith(m, "?") || exists i | 0 <= i < |QuestionWords| :: WordCue(m, QuestionWords[i])
  }

  /** looksLikeQuestion: the `?` test, then the word search. */
  method LooksLikeQuestion(message: string) returns (result: bool)
    ensures result == LooksInterrogative(Trim(Lower(message)))
  {
    var m := Trim(Lower(message));
    if EndsWith(m, "?") {
      return true;
    }
    result := AnyWordCue(m, QuestionWords);
  }

  /** The loop over the question words, returning at the first cue found. */
  method AnyWordCue(m: string, words: seq<string>) returns (found: bool)
    ensures found <==> exists i | 0 <= i < |words| :: WordCue(m, words[i])
  {
    var i := 0;
    while i < |words|
      invariant 0 <= i <= |words|
      invariant forall j | 0 <= j < i :: !WordCue(m, words[j])
    {
      var w := words[i];
      if StartsWith(m, w + " ") || Contains(m, " " + w + " ") {
        assert WordCue(m, words[i]);
        return true;
      }
      i := i + 1;
    }
    return false;
  }

  /** Every word cue needs a space, so a single word is a question only when it ends with `?`. */
  lemma {:induction false} SingleWordNeedsQuestionMark(m: string)
    requires forall i | 0 <= i < |m| :: m[i] != ' '
    ensures LooksInterrogative(m) <==> EndsWith(m, "?")
  {
    forall j | 0 <= j < |QuestionWords| ensures !WordCue(m, QuestionWords[j]) {
      NoSpaceNoCue(m, QuestionWords[j]);
    }
  }

  lemma NoSpaceNoCue(m: string, w: string)
    requires forall i | 0 <= i < |m| :: m[i] != ' '
    ensures !WordCue(m, w)
  {
    CueHasSpace(m, w);
  }

  lemma CueHasSpace(m: string, w: string)
    ensures WordCue(m, w) ==> exists i | 0 <= i < |m| :: m[i] == ' '
  {
    if StartsWith(m, w + " ") {
      assert m[|w|] == (w + " ")[|w|];
    } else if Contains(m, " " + w + " ") {
      var i: nat :| i <= |m| && OccursAt(m, " " + w + " ", i);
      assert m[i] == (" " + w + " ")[0];
    }
  }

  /** "how much" and "how many" add nothing: any message they catch is already caught by "how". */
  lemma {:induction false} HowMuchImpliesHow(m: string, w: string)
    requires w == "how much" || w == "how many"
    requires WordCue(m, w)
    ensures WordCue(m, "how")
  {
    if StartsWith(m, w + " ") {
      assert m[..4] == (w + " ")[..4] == "how ";
    } else {
      var i: nat :| i <= |m| && OccursAt(m, " " + w + " ", i);
      assert m[i..i + 5] == (" " + w + " ")[..5] == " " + "how" + " ";
      assert OccursAt(m, " " + "how" + " ", i);
    }
  }
}
