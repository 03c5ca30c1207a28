/** The voice-command classifier of the speech listener: the `if/elif` chain
    that turns a lower-cased utterance into a pointer action. */
module Voice {
  import opened Actions
  import opened Config

  /** What the listener does with one utterance: perform an action, leave the
      listening loop, or do nothing. */
  datatype Command = Perform(action: Action) | Exit | Ignore

  /** sub occurs in s starting at index i. */
  predicate OccursAt(s: string, sub: string, i: int) {
    0 <= i && i + |sub| <= |s| && s[i..i + |sub|] == sub
  }

  /** Python's `sub in s` on strings. */
  predicate Contains(s: string, sub: string) {
    exists i :: 0 <= i <= |s| && OccursAt(s, sub, i)
  }

  /** The characters for which Python's `str.isspace()` holds, i.e. those
      `str.strip()` removes. */
  predicate IsSpace(c: char) {
    c == ' ' || ('\t' <= c <= '\r') || ('\U{1c}' <= c <= '\U{1f}') ||
    c == '\U{85}' || c == '\U{a0}' || c == '\U{1680}' || ('\U{2000}' <= c <= '\U{200a}') ||
    c == '\U{2028}' || c == '\U{2029}' || c == '\U{202f}' || c == '\U{205f}' || c == '\U{3000}'
  }

  /** Number of leading whitespace characters. */
  function LeadingSpaces(s: string): (n: nat)
    ensures n <= |s|
    ensures forall k :: 0 <= k < n ==> IsSpace(s[k])
    ensures n < |s| ==> !IsSpace(s[n])
  {
    if s == [] || !IsSpace(s[0]) then 0 else 1 + LeadingSpaces(s[1..])
  }

  /** Number of trailing whitespace characters. */
  function TrailingSpaces(s: string): (n: nat)
    ensures n <= |s|
    ensures forall k :: |s| - n <= k < |s| ==> IsSpace(s[k])
    ensures n < |s| ==> !IsSpace(s[|s| - 1 - n])
  {
    if s == [] || !IsSpace(s[|s| - 1]) then 0 else 1 + TrailingSpaces(s[..|s| - 1])
  }

  /** `s.strip()`: s without its leading and trailing whitespace. The result
      is the slice of s that starts after the leading whitespace, its ends are
      not whitespace, and only whitespace is cut off after it. */
  function Strip(s: string): (r: string)
    ensures r == [] || (!IsSpace(r[0]) && !IsSpace(r[|r| - 1]))
    ensures OccursAt(s, r, LeadingSpaces(s))
    ensures forall k :: 0 <= k < LeadingSpaces(s) ==> IsSpace(s[k])
    ensures forall k :: LeadingSpaces(s) + |r| <= k < |s| ==> IsSpace(s[k])
  {
    var lead := LeadingSpaces(s);
    var rest := s[lead..];
    var r := rest[..|rest| - TrailingSpaces(rest)];
    assert s[lead..lead + |r|] == r;
    r
  }

  /** The classifier, first match wins, in the source's order. The voice
      channel only clicks, scrolls by +-500 or exits; it never moves the
      cursor. */
  function Classify(cmd: string): (c: Command)
    ensures c.Perform? ==>
      IsClickClass(c.action) || c.action == Scroll(SCROLL_AMOUNT) || c.action == Scroll(-SCROLL_AMOUNT)
  {
    if Contains(cmd, "left click") || Strip(cmd) == "click" then Perform(Click)
    else if Contains(cmd, "double click") || Contains(cmd, "double") then Perform(DoubleClick)
    else if Contains(cmd, "right click") || Contains(cmd, "right") then Perform(RightClick)
    else if Contains(cmd, "scroll up") || (Contains(cmd, "scroll") && Contains(cmd, "up")) then Perform(Scroll(SCROLL_AMOUNT))
    else if Contains(cmd, "scroll down") then Perform(Scroll(-SCROLL_AMOUNT))
    else if Contains(cmd, "exit mouse") || Contains(cmd, "stop") then Exit
    else Ignore
  }

  // ---------------------------------------------------------------------------
  // Substrings

  /** A substring of a substring is a substring. */
  lemma ContainsTransitive(s: string, t: string, u: string)
    requires Contains(s, t) && Contains(t, u)
    ensures Contains(s, u)
  {
    var i :| 0 <= i <= |s| && OccursAt(s, t, i);
    var j :| 0 <= j <= |t| && OccursAt(t, u, j);
    assert s[i..i + |t|] == t;
    assert t[j..j + |u|] == u;
    assert s[i + j..i + j + |u|] == u by {
      forall k | 0 <= k < |u| ensures s[i + j + k] == u[k] {
        assert s[i + j + k] == s[i..i + |t|][j + k];
      }
    }
    assert OccursAt(s, u, i + j);
  }

  /** The longer phrases the chain tests contain the shorter ones it tests
      beside them. */
  lemma PhraseContainment()
    ensures Contains("left click", "click")
    ensures Contains("double click", "double")
    ensures Contains("right click", "right")
    ensures Contains("scroll up", "scroll") && Contains("scroll up", "up")
    ensures Contains("scroll down", "scroll")
  {
    assert OccursAt("left click", "click", 5);
    assert OccursAt("double click", "double", 0);
    assert OccursAt("right click", "right", 0);
    assert OccursAt("scroll up", "scroll", 0);
    assert OccursAt("scroll up", "up", 7);
    assert OccursAt("scroll down", "scroll", 0);
  }

  /** Such an utterance mentions no word with a letter outside "click" and
      whitespace, in particular none of "double", "right", "scroll", "stop". */
  lemma StrippedClickExcludes(cmd: string, word: string)
    requires Strip(cmd) == "click" && word != []
    requires !IsSpace(word[0]) && word[0] !in "click"
    ensures !Contains(cmd, word)
  {
  }

  /** A word with a letter that s lacks does not occur in s. */
  lemma AbsentLetter(s: string, word: string, k: nat)
    requires k < |word| && word[k] !in s
    ensures !Contains(s, word)
  {
  }

  // ---------------------------------------------------------------------------
  // The classifier

  /** A simpler chain that drops every test the chain already implies
      ("double click" implies "double", and so on). */
  function ClassifyReduced(cmd: string): Command {
    if Contains(cmd, "left click") || Strip(cmd) == "click" then Perform(Click)
    else if Contains(cmd, "double") then Perform(DoubleClick)
    else if Contains(cmd, "right") then Perform(RightClick)
    else if Contains(cmd, "scroll") && Contains(cmd, "up") then Perform(Scroll(SCROLL_AMOUNT))
    else if Contains(cmd, "scroll down") then Perform(Scroll(-SCROLL_AMOUNT))
    else if Contains(cmd, "exit mouse") || Contains(cmd, "stop") then Exit
    else Ignore
  }

  /** The redundant phrase tests of the source never change the outcome. */
  lemma ClassifyMatchesReduced(cmd: string)
    ensures Classify(cmd) == ClassifyReduced(cmd)
  {
    PhraseContainment();
    if Contains(cmd, "double click") { ContainsTransitive(cmd, "double click", "double"); }
    if Contains(cmd, "right click") { ContainsTransitive(cmd, "right click", "right"); }
    if Contains(cmd, "scroll up") {
      ContainsTransitive(cmd, "scroll up", "scroll");
      ContainsTransitive(cmd, "scroll up", "up");
    }
  }

  /** An utterance is a left click exactly when it says "left click" or is
      "click" up to surrounding whitespace. */
  lemma ClickLaw(cmd: string)
    ensures Classify(cmd) == Perform(Click) <==> Contains(cmd, "left click") || Strip(cmd) == "click"
  {
  }

  /** An utterance is a double click exactly when it says "double" and not
      "left click": a bare "click" never says "double". */
  lemma DoubleLaw(cmd: string)
    ensures Classify(cmd) == Perform(DoubleClick) <==> Contains(cmd, "double") && !Contains(cmd, "left click")
  {
    ClassifyMatchesReduced(cmd);
    if Strip(cmd) == "click" {
      StrippedClickExcludes(cmd, "double");
    }
  }

  /** "right" classifies as a right click exactly when neither a left nor a
      double click was recognised first. */
  lemma RightLaw(cmd: string)
    ensures Classify(cmd) == Perform(RightClick) <==>
      Contains(cmd, "right") && !Contains(cmd, "double") && !Contains(cmd, "left click") && Strip(cmd) != "click"
  {
    ClassifyMatchesReduced(cmd);
  }

  /** The scroll branches: up when "scroll" and "up" both occur and no click
      phrase came first; down on "scroll down" only when the up test failed,
      so a scroll down never comes from an utterance that also says "up". */
  lemma ScrollLaw(cmd: string)
    ensures Classify(cmd) == Perform(Scroll(SCROLL_AMOUNT)) <==>
      Contains(cmd, "scroll") && Contains(cmd, "up") &&
      !Contains(cmd, "left click") && !Contains(cmd, "double") && !Contains(cmd, "right")
    ensures Classify(cmd) == Perform(Scroll(-SCROLL_AMOUNT)) <==>
      Contains(cmd, "scroll down") && !(Contains(cmd, "scroll") && Contains(cmd, "up")) &&
      !Contains(cmd, "left click") && !Contains(cmd, "double") && !Contains(cmd, "right")
    ensures Classify(cmd) == Perform(Scroll(-SCROLL_AMOUNT)) ==> !Contains(cmd, "up")
  {
    ClassifyMatchesReduced(cmd);
    PhraseContainment();
    if Contains(cmd, "scroll down") { ContainsTransitive(cmd, "scroll down", "scroll"); }
    if Strip(cmd) == "click" {
      StrippedClickExcludes(cmd, "scroll");
      StrippedClickExcludes(cmd, "scroll down");
    }
  }

  /** The listener stops exactly on "exit mouse" or "stop" when no action
      phrase was recognised before them. */
  lemma ExitLaw(cmd: string)
    ensures Classify(cmd) == Exit <==>
      (Contains(cmd, "exit mouse") || Contains(cmd, "stop")) &&
      !Contains(cmd, "left click") && Strip(cmd) != "click" && !Contains(cmd, "double") &&
      !Contains(cmd, "right") && !(Contains(cmd, "scroll") && Contains(cmd, "up")) &&
      !Contains(cmd, "scroll down")
  {
    ClassifyMatchesReduced(cmd);
  }

  /** Everything else is ignored: an utterance that matches none of the
      phrases does nothing. */
  lemma IgnoreLaw(cmd: string)
    ensures Classify(cmd) == Ignore <==>
      !Contains(cmd, "left click") && Strip(cmd) != "click" && !Contains(cmd, "double") &&
      !Contains(cmd, "right") && !(Contains(cmd, "scroll") && Contains(cmd, "up")) &&
      !Contains(cmd, "scroll down") && !Contains(cmd, "exit mouse") && !Contains(cmd, "stop")
  {
    ClassifyMatchesReduced(cmd);
  }

  /** Order decides: "double left click" is a single left click. */
  lemma DoubleLeftClickIsClick()
    ensures Classify("double left click") == Perform(Click)
  {
    assert OccursAt("double left click", "left click", 7);
  }

  /** Only a bare "click", up to surrounding whitespace, counts as one. */
  lemma BareClick()
    ensures Classify(" click\n") == Perform(Click)
  {
  }

  /** "click" must be the whole utterance: "click me" is ignored. */
  lemma ClickWithMoreWordsIgnored()
    ensures Classify("click me") == Ignore
  {
    var c := "click me";
    assert LeadingSpaces(c) == 0 && TrailingSpaces(c) == 0;
    AbsentLetter(c, "left click", 2);   // 'f'
    AbsentLetter(c, "double", 0);       // 'd'
    AbsentLetter(c, "double click", 0);
    AbsentLetter(c, "right click", 0);  // 'r'
    AbsentLetter(c, "right", 0);
    AbsentLetter(c, "scroll up", 0);    // 's'
    AbsentLetter(c, "scroll", 0);
    AbsentLetter(c, "scroll down", 0);
    AbsentLetter(c, "exit mouse", 1);   // 'x'
    AbsentLetter(c, "stop", 0);
  }

  /** Scrolling is tested before stopping: "stop scrolling up" scrolls up. */
  lemma StopScrollingUpScrolls()
    ensures Classify("stop scrolling up") == Perform(Scroll(SCROLL_AMOUNT))
  {
    var c := "stop scrolling up";
    assert LeadingSpaces(c) == 0 && TrailingSpaces(c) == 0;
    AbsentLetter(c, "left click", 1);   // 'e'
    AbsentLetter(c, "double", 0);       // 'd'
    AbsentLetter(c, "double click", 0);
    AbsentLetter(c, "right click", 3);  // 'h'
    AbsentLetter(c, "right", 3);
    assert OccursAt(c, "scroll", 5);
    assert OccursAt(c, "up", 15);
  }
}
