/** Worked cases of `build_caption` (tag_images.py:32-94), evaluated on the model. */
module CaptionExamples {
  import opened Text
  import opened Tokens
  import opened Caption

  const General: seq<TagScore> := [TagScore("blue_sky", 0.9), TagScore("logo", 0.95), TagScore("long_hair", 0.2)]
  const Character: seq<TagScore> := [TagScore("alice", 0.9), TagScore("bob", 0.6)]

  function Settings(featureMode: bool): Config {
    Config(0.35, 0.85, Some("mychar"), featureMode)
  }

  /** A string with a character that `s` lacks is not a substring of `s`. */
  lemma MissingCharNotContained(s: string, sub: string, k: nat)
    requires k < |sub| && sub[k] !in s
    ensures !Contains(s, sub)
  {
    ContainsIff(s, sub);
  }

  /** A plain tag lacking some letter of each word of the substring
      blacklist has no blacklisted part. */
  lemma PlainTagClean(tag: string, kLogo: nat, kUser: nat, kMark: nat)
    requires Plain(tag)
    requires kLogo < 4 && "logo"[kLogo] !in tag
    requires kUser < 8 && "username"[kUser] !in tag
    requires kMark < 9 && "watermark"[kMark] !in tag
    ensures !HasBlacklistedPart(tag)
  {
    CaseFoldPlain(tag);
    MissingCharNotContained(tag, "logo", kLogo);
    MissingCharNotContained(tag, "username", kUser);
    MissingCharNotContained(tag, "watermark", kMark);
  }

  /** The filters of the general loop, one by one. */
  lemma PassesWhen(e: TagScore, cfg: Config)
    requires e.score >= cfg.generalThreshold && Trimmed(e.tag) && e.tag != []
    requires e.tag !in BlacklistExact && !HasBlacklistedPart(e.tag) && !IsParenthesised(e.tag)
    ensures GeneralPasses(e, cfg)
  {
    StripTrimmed(e.tag);
  }

  lemma BlueSkyAllowed()
    ensures Trimmed("blue_sky") && "blue_sky" !in BlacklistExact && !IsParenthesised("blue_sky")
  {
  }

  lemma BlueSkyPasses(cfg: Config)
    requires cfg.generalThreshold == 0.35
    ensures GeneralPasses(TagScore("blue_sky", 0.9), cfg)
  {
    BlueSkyAllowed();
    PlainTagClean("blue_sky", 1, 3, 0);
    PassesWhen(TagScore("blue_sky", 0.9), cfg);
  }

  lemma LogoFails(cfg: Config)
    ensures !GeneralPasses(TagScore("logo", 0.95), cfg)
  {
    StripTrimmed("logo");
  }

  lemma BelowThreshold(e: TagScore, cfg: Config)
    requires e.score < cfg.generalThreshold
    ensures !GeneralPasses(e, cfg)
  {
  }

  /** Of three entries of which only the first is accepted, only its
      trimmed tag is kept. */
  lemma FirstOfThree(a: TagScore, b: TagScore, c: TagScore, keep: TagScore -> bool)
    requires keep(a) && !keep(b) && !keep(c)
    ensures Kept([a, b, c], keep) == [Strip(a.tag)]
  {
    assert [a][..0] == [];
    assert Kept([a], keep) == [Strip(a.tag)];
    assert [a, b][..1] == [a];
    assert Kept([a, b], keep) == [Strip(a.tag)];
    assert [a, b, c][..2] == [a, b];
  }

  /** "logo" is dropped by the exact blacklist, "long_hair" by the threshold,
      and "blue_sky" passes. */
  lemma GeneralExample(featureMode: bool)
    ensures GeneralCandidates(General, Settings(featureMode)) == ["blue_sky"]
  {
    var cfg := Settings(featureMode);
    var blueSky, logo, longHair := TagScore("blue_sky", 0.9), TagScore("logo", 0.95), TagScore("long_hair", 0.2);
    assert General == [blueSky, logo, longHair];
    BlueSkyPasses(cfg);
    LogoFails(cfg);
    BelowThreshold(longHair, cfg);
    FirstOfThree(blueSky, logo, longHair, GeneralFilter(cfg));
    StripTrimmed("blue_sky");
  }

  lemma TriggerExample()
    ensures TriggerCandidates(Some("mychar")) == ["mychar"]
  {
    StripTrimmed("mychar");
  }

  /** "alice" has the highest score and reaches the character threshold;
      in feature mode the character step adds nothing. */
  lemma CharacterExample(featureMode: bool)
    ensures CharacterCandidates(Character, Settings(featureMode)) == if featureMode then [] else ["alice"]
  {
    assert Character[..1] == [Character[0]];
    assert FirstMaxIndex(Character) == 0;
    StripTrimmed("alice");
  }

  lemma AddTwo(a: string, b: string)
    requires a != [] && b != [] && a != b
    ensures AddAll([], [a, b]) == [a, b]
  {
    assert [a, b][..1] == [a];
    assert [a][..0] == [];
    assert AddAll([], [a]) == [a];
  }

  lemma AddThree(a: string, b: string, c: string)
    requires a != [] && b != [] && c != [] && a != b && a != c && b != c
    ensures AddAll([], [a, b, c]) == [a, b, c]
  {
    assert [a, b, c][..2] == [a, b];
    AddTwo(a, b);
  }

  lemma JoinExample()
    ensures Join(["mychar", "alice", "blue_sky"], Separator) == "mychar, alice, blue_sky"
    ensures Join(["mychar", "blue_sky"], Separator) == "mychar, blue_sky"
  {
    assert ["mychar", "alice", "blue_sky"][1..] == ["alice", "blue_sky"];
    assert ["alice", "blue_sky"][1..] == ["blue_sky"];
    assert ["mychar", "blue_sky"][1..] == ["blue_sky"];
  }

  /** The trigger, then the best character tag, then the one general tag
      that survives the filters. */
  lemma CaptionExample()
    ensures CaptionTokens(General, Character, Settings(false)) == ["mychar", "alice", "blue_sky"]
    ensures CaptionText(General, Character, Settings(false)) == "mychar, alice, blue_sky"
  {
    var cfg := Settings(false);
    TriggerExample();
    CharacterExample(false);
    GeneralExample(false);
    var cs := LeadCandidates(Character, cfg) + GeneralCandidates(General, cfg);
    assert cs == ["mychar", "alice", "blue_sky"];
    AddThree("mychar", "alice", "blue_sky");
    JoinExample();
  }

  /** In feature mode the character step is skipped. */
  lemma FeatureModeCaptionExample()
    ensures CaptionTokens(General, Character, Settings(true)) == ["mychar", "blue_sky"]
    ensures CaptionText(General, Character, Settings(true)) == "mychar, blue_sky"
  {
    var cfg := Settings(true);
    TriggerExample();
    CharacterExample(true);
    GeneralExample(true);
    var cs := LeadCandidates(Character, cfg) + GeneralCandidates(General, cfg);
    assert cs == ["mychar", "blue_sky"];
    AddTwo("mychar", "blue_sky");
    JoinExample();
  }

  /** The character tag is not checked against the blacklists. */
  lemma CharacterSkipsBlacklists()
    ensures CharacterCandidates([TagScore("watermark", 0.9)], Settings(false)) == ["watermark"]
    ensures !GeneralPasses(TagScore("watermark", 0.9), Settings(false))
  {
    StripTrimmed("watermark");
  }

  /** A trigger of spaces only is dropped by `add`. */
  lemma BlankTriggerSkipped(general: seq<TagScore>)
    ensures CaptionTokens(general, [], Config(0.35, 0.85, Some("  "), true))
      == AddAll([], GeneralCandidates(general, Config(0.35, 0.85, Some("  "), true)))
  {
    var cfg := Config(0.35, 0.85, Some("  "), true);
    assert Strip("  ") == [] by {
      assert "  "[1..] == " ";
      assert " "[1..] == [];
    }
    var blank: seq<string> := [[]];
    assert LeadCandidates([], cfg) == blank;
    AddAllAppend([], blank, GeneralCandidates(general, cfg));
    assert blank[..0] == [];
    assert AddAll([], blank) == [];
  }

  /** In feature mode the parenthesis filter applies to general tags only:
      a trigger holding both parentheses is still emitted. */
  lemma FeatureModeKeepsParenthesisedTrigger()
    ensures CaptionTokens([], [], Config(0.35, 0.85, Some("a_(b)"), true)) == ["a_(b)"]
  {
    var cfg := Config(0.35, 0.85, Some("a_(b)"), true);
    StripTrimmed("a_(b)");
    assert LeadCandidates([], cfg) + GeneralCandidates([], cfg) == ["a_(b)"];
    assert ["a_(b)"][..0] == [];
  }

  /** A character followed by plain text folds to its own fold followed by
      that text. */
  lemma FoldBeforePlain(c: char, rest: string)
    requires Plain(rest)
    ensures CaseFold([c] + rest) == CaseFoldChar(c) + rest
  {
    CaseFoldPlain(rest);
    assert ([c] + rest)[1..] == rest;
  }

  /** A general entry whose trimmed tag has a blacklisted part is dropped. */
  lemma BlacklistedPartDropped(e: TagScore, cfg: Config)
    requires HasBlacklistedPart(Strip(e.tag))
    ensures !GeneralPasses(e, cfg)
  {
  }

  /** The ligature "fl" folds to two letters, so "\U{FB02}ogo" holds "logo"
      once folded. */
  lemma LigatureFoldsToLogo(tag: string)
    requires tag == ['\U{FB02}'] + "ogo"
    ensures HasBlacklistedPart(tag)
  {
    FoldBeforePlain('\U{FB02}', "ogo");
    assert CaseFold(tag) == "flogo";
    assert "flogo"[1..] == "logo";
    assert Contains("flogo", "logo");
    assert "logo" in BlacklistContains;
  }

  /** A tag spelled with the ligature is dropped like "logo" itself. */
  lemma LigatureLogoDropped(cfg: Config)
    ensures !GeneralPasses(TagScore("\U{FB02}ogo", 0.9), cfg)
  {
    var tag := "\U{FB02}ogo";
    StripTrimmed(tag);
    LigatureFoldsToLogo(tag);
    BlacklistedPartDropped(TagScore(tag, 0.9), cfg);
  }
}
