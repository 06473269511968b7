/** Concrete utterances and what the grammar makes of them. */
module ParserScenarios {
  import opened Common
  import opened Parser

  /** Once lower-casing and deleting punctuation leave a normalised string,
      the remaining steps change nothing. */
  lemma NormalizeVia(transcript: string, t: string)
    requires IsNormalized(t)
    requires StripPunctuation(LowerString(transcript)) == t
    ensures Normalize(transcript) == t
  {
    LowerFixesNormalized(t);
    StripPunctuationFixes(t);
    NormalizeFixesNormalized(t);
  }

  lemma ScrollDownLowers()
    ensures LowerString("Scroll Down!") == "scroll down" + "!"
  {
  }

  lemma ScrollDownStrips()
    ensures StripPunctuation("scroll down" + "!") == "scroll down"
  {
    StripPunctuationAppend("scroll down", "!");
    ScrollDownKeepsWords();
    PunctuationDeleted();
  }

  lemma ScrollDownKeepsWords()
    ensures StripPunctuation("scroll down") == "scroll down"
  {
    var words := "scroll down";
    assert forall i :: 0 <= i < |words| ==> IsWordChar(words[i]) || IsSpace(words[i]);
    StripPunctuationFixes(words);
  }

  lemma PunctuationDeleted()
    ensures StripPunctuation("!") == ""
  {
  }

  lemma ScrollDownIsNormalized()
    ensures IsNormalized("scroll down")
  {
  }

  lemma ScrollDownNormalizes()
    ensures Normalize("Scroll Down!") == "scroll down"
  {
    ScrollDownLowers();
    ScrollDownStrips();
    ScrollDownIsNormalized();
    NormalizeVia("Scroll Down!", "scroll down");
  }

  /** Case and punctuation do not matter: "Scroll Down!" scrolls down. */
  lemma ScrollDownScenario()
    ensures ParseCommand("Scroll Down!", 0.9)
      == Some(Command("command", None, "scroll_down", map[], Meta(0.9, "Scroll Down!")))
  {
    ScrollDownNormalizes();
    ScrollDownMatches();
  }

  lemma ScrollDownMatches()
    ensures FirstMatch("scroll down") == Some(Match("scroll_down", map[]))
  {
    ScrollDownNotEarlier();
    FirstMatchWins("scroll down", 4);
  }

  lemma ScrollDownNotEarlier()
    ensures NoEarlierMatch("scroll down", 4)
  {
    var t := "scroll down";
    assert |t| == 11;
  }

  lemma GoBackLowers()
    ensures LowerString("Go Back") == "go back"
  {
  }

  lemma GoBackIsNormalized()
    ensures IsNormalized("go back")
  {
  }

  lemma GoBackNormalizes()
    ensures Normalize("Go Back") == "go back"
  {
    GoBackLowers();
    GoBackIsNormalized();
    StripPunctuationFixes("go back");
    NormalizeVia("Go Back", "go back");
  }

  lemma GoBackMatches()
    ensures FirstMatch("go back") == Some(Match("back", map[]))
  {
    FirstMatchWins("go back", 0);
  }

  /** "Go Back" is the back command. */
  lemma GoBackScenario()
    ensures ParseCommand("Go Back", 1.0)
      == Some(Command("command", None, "back", map[], Meta(1.0, "Go Back")))
  {
    GoBackNormalizes();
    GoBackMatches();
  }

  lemma ClickAFIsNormalized()
    ensures IsNormalized("click a f")
  {
  }

  lemma ClickAFNormalizes()
    ensures Normalize("click a f") == "click a f"
  {
    ClickAFIsNormalized();
    NormalizeFixesNormalized("click a f");
  }

  lemma AFCode()
    ensures HintCode("a f") == "AF"
  {
    assert RemoveSpaces("a f") == "af";
    assert UpperString("af") == "AF";
  }

  lemma ClickAFMatches()
    ensures FirstMatch("click a f") == Some(Match("hint_click", map["hint" := "AF"]))
  {
    ClickAFIsNormalized();
    assert "click a f"[..6] == "click " && "click a f"[6..] == "a f";
    assert LettersAndSpaces("a f");
    ClickRuleApplies("click a f");
    TableClick("click a f");
    AFCode();
  }

  /** Letters spoken apart make one hint code: "click a f" clicks hint AF. */
  lemma ClickAFScenario()
    ensures ParseCommand("click a f", 1.0)
      == Some(Command("command", None, "hint_click", map["hint" := "AF"], Meta(1.0, "click a f")))
  {
    ClickAFNormalizes();
    ClickAFMatches();
  }

  lemma PleaseScrollDownNowIsNormalized()
    ensures IsNormalized("please scroll down now")
  {
  }

  lemma PleaseScrollDownNowNormalizes()
    ensures Normalize("please scroll down now") == "please scroll down now"
  {
    PleaseScrollDownNowIsNormalized();
    NormalizeFixesNormalized("please scroll down now");
  }

  lemma PleaseScrollDownNowIsNoPhrase()
    ensures "please scroll down now" !in ExactPhrases
  {
  }

  lemma PleaseScrollDownNowIsNoClick()
    ensures MatchClick("please scroll down now") == None
  {
    var t := "please scroll down now";
    assert t[..5][0] == 'p';
  }

  lemma PleaseScrollDownNowMisses()
    ensures FirstMatch("please scroll down now") == None
  {
    PleaseScrollDownNowIsNoPhrase();
    PleaseScrollDownNowIsNoClick();
    TableMisses("please scroll down now");
  }

  /** Extra words break an exact phrase: "please scroll down now" is no command. */
  lemma PleaseScrollDownNowScenario()
    ensures ParseCommand("please scroll down now", 1.0) == None
  {
    PleaseScrollDownNowNormalizes();
    PleaseScrollDownNowMisses();
  }

  lemma ClickDigitIsNormalized()
    ensures IsNormalized("click 5")
  {
  }

  lemma ClickDigitNormalizes()
    ensures Normalize("click 5") == "click 5"
  {
    ClickDigitIsNormalized();
    NormalizeFixesNormalized("click 5");
  }

  lemma ClickDigitIsNoPhrase()
    ensures "click 5" !in ExactPhrases
  {
  }

  lemma ClickDigitIsNoClick()
    ensures MatchClick("click 5") == None
  {
    ClickDigitIsNormalized();
    MatchClickNormalized("click 5");
    assert !LettersAndSpaces("click 5"[6..]);
  }

  lemma ClickDigitMisses()
    ensures FirstMatch("click 5") == None
  {
    ClickDigitIsNoPhrase();
    ClickDigitIsNoClick();
    TableMisses("click 5");
  }

  /** A digit after "click" is not a hint: "click 5" is no command. */
  lemma ClickDigitScenario()
    ensures ParseCommand("click 5", 1.0) == None
  {
    ClickDigitNormalizes();
    ClickDigitMisses();
  }
}
