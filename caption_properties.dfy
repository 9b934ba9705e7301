/** What `build_caption` (tag_images.py:46-94) guarantees of the caption it
    assembles, stated over the functions of module Caption. */
module CaptionProperties {
  import opened Text
  import opened Tokens
  import opened Caption

  /** The token the trigger step leaves at the head of the list, described
      directly: the stripped trigger, unless there is none or it is blank. */
  function TriggerToken(trigger: Option<string>): seq<string> {
    if trigger.Some? && Strip(trigger.value) != [] then [Strip(trigger.value)] else []
  }

  /** Every kept tag comes from an entry that `keep` accepts. */
  lemma {:induction false} KeptSource(entries: seq<TagScore>, keep: TagScore -> bool, t: string) returns (j: nat)
    requires t in Kept(entries, keep)
    ensures j < |entries| && keep(entries[j]) && Strip(entries[j].tag) == t
    decreases |entries|
  {
    var n := |entries| - 1;
    var front := entries[..n];
    if t in Kept(front, keep) {
      j := KeptSource(front, keep, t);
      assert front[j] == entries[j];
    } else {
      j := n;
    }
  }

  /** Every entry that `keep` accepts contributes its trimmed tag. */
  lemma {:induction false} KeptFromEntry(entries: seq<TagScore>, keep: TagScore -> bool, j: nat)
    requires j < |entries| && keep(entries[j])
    ensures Strip(entries[j].tag) in Kept(entries, keep)
    decreases |entries|
  {
    var n := |entries| - 1;
    var front := entries[..n];
    if j < n {
      assert front[j] == entries[j];
      KeptFromEntry(front, keep, j);
    }
  }

  /** A string is kept exactly when some accepted entry trims to it. */
  lemma KeptMembers(entries: seq<TagScore>, keep: TagScore -> bool, t: string)
    ensures t in Kept(entries, keep) <==>
      exists j :: 0 <= j < |entries| && keep(entries[j]) && Strip(entries[j].tag) == t
  {
    if t in Kept(entries, keep) {
      var j := KeptSource(entries, keep, t);
    }
    if j :| 0 <= j < |entries| && keep(entries[j]) && Strip(entries[j].tag) == t {
      KeptFromEntry(entries, keep, j);
    }
  }

  /** Kept tags are trimmed. */
  lemma {:induction false} KeptTrimmed(entries: seq<TagScore>, keep: TagScore -> bool)
    ensures forall i :: 0 <= i < |Kept(entries, keep)| ==> Trimmed(Kept(entries, keep)[i])
    decreases |entries|
  {
    if entries != [] {
      KeptTrimmed(entries[..|entries| - 1], keep);
    }
  }

  /** A stripped tag is a general candidate exactly when some entry of the
      general mapping passes the filters and trims to it. */
  lemma GeneralCandidatesMembers(general: seq<TagScore>, cfg: Config, t: string)
    ensures t in GeneralCandidates(general, cfg) <==>
      exists j :: 0 <= j < |general| && GeneralPasses(general[j], cfg) && Strip(general[j].tag) == t
  {
    KeptMembers(general, GeneralFilter(cfg), t);
    assert forall e :: GeneralFilter(cfg)(e) == GeneralPasses(e, cfg);
  }

  /** Every general candidate is non-empty and trimmed. */
  lemma GeneralCandidatesTrimmed(general: seq<TagScore>, cfg: Config)
    ensures forall i :: 0 <= i < |GeneralCandidates(general, cfg)| ==>
      GeneralCandidates(general, cfg)[i] != [] && Trimmed(GeneralCandidates(general, cfg)[i])
  {
    KeptTrimmed(general, GeneralFilter(cfg));
    forall i | 0 <= i < |GeneralCandidates(general, cfg)|
      ensures GeneralCandidates(general, cfg)[i] != []
    {
      var t := GeneralCandidates(general, cfg)[i];
      var j := KeptSource(general, GeneralFilter(cfg), t);
      assert GeneralPasses(general[j], cfg);
    }
  }

  lemma CandidatesTrimmed(general: seq<TagScore>, character: seq<TagScore>, cfg: Config)
    ensures forall i :: 0 <= i < |LeadCandidates(character, cfg)| ==> Trimmed(LeadCandidates(character, cfg)[i])
    ensures var cs := LeadCandidates(character, cfg) + GeneralCandidates(general, cfg);
      forall i :: 0 <= i < |cs| ==> Trimmed(cs[i])
  {
    GeneralCandidatesTrimmed(general, cfg);
  }

  /** The emitted tokens never repeat, and each is non-empty and trimmed. */
  lemma CaptionWellFormed(general: seq<TagScore>, character: seq<TagScore>, cfg: Config)
    ensures WellFormed(CaptionTokens(general, character, cfg))
  {
    var cs := LeadCandidates(character, cfg) + GeneralCandidates(general, cfg);
    CandidatesTrimmed(general, character, cfg);
    GeneralCandidatesTrimmed(general, cfg);
    AddAllWellFormed([], cs);
  }

  /** The trigger step leaves exactly TriggerToken behind. */
  lemma TriggerStep(trigger: Option<string>)
    ensures AddAll([], TriggerCandidates(trigger)) == TriggerToken(trigger)
  {
    if trigger.Some? && trigger.value != "" {
      assert AddAll([], TriggerCandidates(trigger)) == AddToken([], Strip(trigger.value));
    }
  }

  /** A trigger that is not blank after stripping is the first token, so the
      caption text begins with it. */
  lemma TriggerComesFirst(general: seq<TagScore>, character: seq<TagScore>, cfg: Config)
    requires cfg.trigger.Some? && Strip(cfg.trigger.value) != []
    ensures var tokens := CaptionTokens(general, character, cfg);
      |tokens| > 0 && tokens[0] == Strip(cfg.trigger.value)
    ensures var t := Strip(cfg.trigger.value); var text := CaptionText(general, character, cfg);
      |t| <= |text| && text[..|t|] == t
  {
    var t := Strip(cfg.trigger.value);
    var rest := CharacterCandidates(character, cfg) + GeneralCandidates(general, cfg);
    var tokens := CaptionTokens(general, character, cfg);
    assert TriggerCandidates(cfg.trigger) == [t];
    assert LeadCandidates(character, cfg) + GeneralCandidates(general, cfg) == [t] + rest;
    AddAllAppend([], [t], rest);
    assert AddAll([], [t]) == [t] by {
      assert [t][..0] == [];
    }
    AddAllExtends([t], rest);
    assert tokens == AddAll([t], rest);
    JoinStartsWithFirst(tokens, Separator);
  }

  /** The tokens after the trigger and character steps: the trigger token,
      then at most one more. In feature mode, or with an empty character
      mapping, the character step adds nothing. */
  lemma LeadTokensShape(character: seq<TagScore>, cfg: Config)
    ensures var lead := LeadTokens(character, cfg); var trig := TriggerToken(cfg.trigger);
      |trig| <= |lead| <= |trig| + 1 && lead[..|trig|] == trig
    ensures cfg.featureMode || |character| == 0 ==>
      LeadTokens(character, cfg) == TriggerToken(cfg.trigger)
  {
    var trig := TriggerCandidates(cfg.trigger);
    var chars := CharacterCandidates(character, cfg);
    AddAllAppend([], trig, chars);
    TriggerStep(cfg.trigger);
    AddAllExtends(TriggerToken(cfg.trigger), chars);
  }

  /** Outside feature mode and with a non-empty character mapping, the
      character step considers only the first entry of maximal score: its
      trimmed tag follows the trigger token when the score reaches the
      character threshold (unless it is blank or equal to the trigger), and
      nothing is added otherwise. */
  lemma CharacterSelection(character: seq<TagScore>, cfg: Config)
    requires !cfg.featureMode && |character| > 0
    ensures var best := character[FirstMaxIndex(character)]; var c := Strip(best.tag);
      var trig := TriggerToken(cfg.trigger); var lead := LeadTokens(character, cfg);
      && (best.score < cfg.characterThreshold ==> lead == trig)
      && (best.score >= cfg.characterThreshold && c != [] && c !in trig ==> lead == trig + [c])
      && (best.score >= cfg.characterThreshold && (c == [] || c in trig) ==> lead == trig)
  {
    var trig := TriggerCandidates(cfg.trigger);
    var chars := CharacterCandidates(character, cfg);
    AddAllAppend([], trig, chars);
    TriggerStep(cfg.trigger);
    if chars != [] {
      assert AddAll(TriggerToken(cfg.trigger), chars) == AddToken(TriggerToken(cfg.trigger), chars[0]);
    }
  }

  /** The two properties FirstMaxIndex promises pick out one entry only:
      the first entry of maximal score. */
  lemma FirstMaxIndexUnique(entries: seq<TagScore>, k: nat)
    requires k < |entries|
    requires forall j :: 0 <= j < |entries| ==> entries[j].score <= entries[k].score
    requires forall j :: 0 <= j < k ==> entries[j].score < entries[k].score
    ensures k == FirstMaxIndex(entries)
  {
  }

  lemma SplitAtLead(general: seq<TagScore>, character: seq<TagScore>, cfg: Config)
    ensures CaptionTokens(general, character, cfg)
      == AddAll(LeadTokens(character, cfg), GeneralCandidates(general, cfg))
    ensures WellFormed(LeadTokens(character, cfg))
  {
    AddAllAppend([], LeadCandidates(character, cfg), GeneralCandidates(general, cfg));
    CandidatesTrimmed(general, character, cfg);
    AddAllWellFormed([], LeadCandidates(character, cfg));
  }

  /** The tokens after the trigger and character steps come first and stay
      as they are; every token the general loop adds passes its filters: its
      score reached the general threshold, it is not on the exact blacklist,
      its case fold contains no word of the substring blacklist and, in
      feature mode, it does not hold both parentheses. */
  lemma GeneralTagsFiltered(general: seq<TagScore>, character: seq<TagScore>, cfg: Config)
    ensures var lead := LeadTokens(character, cfg); var tokens := CaptionTokens(general, character, cfg);
      |lead| <= |tokens| && tokens[..|lead|] == lead
    ensures var lead := LeadTokens(character, cfg); var tokens := CaptionTokens(general, character, cfg);
      forall i :: |lead| <= i < |tokens| ==>
        && tokens[i] !in BlacklistExact
        && (forall bad :: bad in BlacklistContains ==> !Contains(CaseFold(tokens[i]), bad))
        && (cfg.featureMode ==> !IsParenthesised(tokens[i]))
        && exists j :: 0 <= j < |general| && general[j].score >= cfg.generalThreshold
                       && Strip(general[j].tag) == tokens[i]
  {
    var lead := LeadTokens(character, cfg);
    var gens := GeneralCandidates(general, cfg);
    var tokens := CaptionTokens(general, character, cfg);
    SplitAtLead(general, character, cfg);
    GeneralCandidatesTrimmed(general, cfg);
    AddAllExtends(lead, gens);
    AddAllOrder(lead, gens);
    forall i | |lead| <= i < |tokens|
      ensures exists j :: 0 <= j < |general| && GeneralPasses(general[j], cfg) && Strip(general[j].tag) == tokens[i]
    {
      GeneralCandidatesMembers(general, cfg, tokens[i]);
    }
  }

  /** The general loop adds its tokens in source order: by the position of
      their first candidate among the entries that pass the filters. */
  lemma GeneralTagsInSourceOrder(general: seq<TagScore>, character: seq<TagScore>, cfg: Config)
    ensures var lead := LeadTokens(character, cfg); var tokens := CaptionTokens(general, character, cfg);
      forall i :: |lead| <= i < |tokens| ==> tokens[i] in GeneralCandidates(general, cfg)
    ensures var lead := LeadTokens(character, cfg); var tokens := CaptionTokens(general, character, cfg);
      var gens := GeneralCandidates(general, cfg);
      forall i, j :: |lead| <= i < j < |tokens| ==> IndexOf(gens, tokens[i]) < IndexOf(gens, tokens[j])
  {
    SplitAtLead(general, character, cfg);
    GeneralCandidatesTrimmed(general, cfg);
    AddAllOrder(LeadTokens(character, cfg), GeneralCandidates(general, cfg));
  }

  /** Nothing that passes the filters is lost: every passing general tag is
      in the caption, either added by the loop or already there. */
  lemma GeneralTagsComplete(general: seq<TagScore>, character: seq<TagScore>, cfg: Config)
    ensures forall j :: 0 <= j < |general| && GeneralPasses(general[j], cfg) ==>
      Strip(general[j].tag) in CaptionTokens(general, character, cfg)
  {
    var tokens := CaptionTokens(general, character, cfg);
    forall j | 0 <= j < |general| && GeneralPasses(general[j], cfg)
      ensures Strip(general[j].tag) in tokens
    {
      var t := Strip(general[j].tag);
      GeneralCandidatesMembers(general, cfg, t);
      AddAllMembers([], LeadCandidates(character, cfg) + GeneralCandidates(general, cfg), t);
    }
  }

  /** In feature mode no character tag is added: after the trigger token
      every token is a general tag without both parentheses. */
  lemma FeatureModeTokens(general: seq<TagScore>, character: seq<TagScore>, cfg: Config)
    requires cfg.featureMode
    ensures var trig := TriggerToken(cfg.trigger); var tokens := CaptionTokens(general, character, cfg);
      |trig| <= |tokens| && tokens[..|trig|] == trig
      && forall i :: |trig| <= i < |tokens| ==>
           !IsParenthesised(tokens[i]) && tokens[i] in GeneralCandidates(general, cfg)
  {
    LeadTokensShape(character, cfg);
    GeneralTagsFiltered(general, character, cfg);
    GeneralTagsInSourceOrder(general, character, cfg);
  }

  /** The caption text is empty exactly when no token was emitted. */
  lemma CaptionEmptyIff(general: seq<TagScore>, character: seq<TagScore>, cfg: Config)
    ensures CaptionText(general, character, cfg) == [] <==> CaptionTokens(general, character, cfg) == []
  {
    CaptionWellFormed(general, character, cfg);
    JoinEmptyIff(CaptionTokens(general, character, cfg), Separator);
  }

  /** Empty mappings and no trigger give the empty caption. */
  lemma EmptyInputsGiveEmptyCaption(cfg: Config)
    requires cfg.trigger.None?
    ensures CaptionText([], [], cfg) == ""
  {
  }
}
