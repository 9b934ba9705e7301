/** Caption assembly, `build_caption` in tag_images.py:32-94, with the tagger
    call replaced by its two results: the `general` and `character` mappings,
    each a sequence of (tag, score) entries in the mapping's iteration order. */
module Caption {
  import opened Text
  import opened Tokens

  /** General tags dropped when, once trimmed, they equal one of these. */
  const BlacklistExact: set<string> := {
    "patreon_username", "fanbox_username",
    "web_address", "signature", "artist_name",
    "watermark", "logo"
  }

  /** General tags dropped when their case fold contains one of these. */
  const BlacklistContains: set<string> := {"logo", "username", "watermark"}

  /** Every blacklist word is a non-empty word of small ASCII letters and
      underscores, and so its own case fold: a tag is compared with the
      words as they are written. */
  lemma BlacklistWordsFolded()
    ensures forall w :: w in BlacklistExact + BlacklistContains ==>
      w != [] && CaseFold(w) == w
  {
    forall w | w in BlacklistExact + BlacklistContains
      ensures w != [] && CaseFold(w) == w
    {
      assert forall i :: 0 <= i < |w| ==> w[i] == '_' || 'a' <= w[i] <= 'z';
      CaseFoldPlain(w);
    }
  }

  /** What the tokens are joined with. */
  const Separator: string := ", "

  datatype Option<+T> = None | Some(value: T)

  /** One entry of a tagger mapping: a tag and its confidence. */
  datatype TagScore = TagScore(tag: string, score: real)

  /** The keyword arguments of one `build_caption` call; `trigger` is `None`
      when no trigger was given. */
  datatype Config = Config(
    generalThreshold: real,
    characterThreshold: real,
    trigger: Option<string>,
    featureMode: bool)

  /** `any(bad in tag.casefold() for bad in BLACKLIST_CONTAINS)`. */
  predicate HasBlacklistedPart(tag: string) {
    exists bad :: bad in BlacklistContains && Contains(CaseFold(tag), bad)
  }

  /** The tag holds both an opening and a closing parenthesis. */
  predicate IsParenthesised(tag: string) {
    '(' in tag && ')' in tag
  }

  /** A general entry gets through every filter of the loop: the score
      threshold, the empty check on the trimmed tag, both blacklists and, in
      feature mode, the parenthesis filter. */
  predicate GeneralPasses(entry: TagScore, cfg: Config) {
    var tag := Strip(entry.tag);
    && !(entry.score < cfg.generalThreshold)
    && tag != []
    && tag !in BlacklistExact
    && !HasBlacklistedPart(tag)
    && !(cfg.featureMode && IsParenthesised(tag))
  }

  /** The entry Python's `max(character.items(), key=lambda x: x[1])` picks:
      scanning in order, a later entry replaces the best so far only when its
      score is strictly greater, so the first entry of maximal score wins. */
  function FirstMaxIndex(entries: seq<TagScore>): (k: nat)
    requires |entries| > 0
    ensures k < |entries|
    ensures forall j :: 0 <= j < |entries| ==> entries[j].score <= entries[k].score
    ensures forall j :: 0 <= j < k ==> entries[j].score < entries[k].score
    decreases |entries|
  {
    if |entries| == 1 then 0
    else
      var n := |entries| - 1;
      var k := FirstMaxIndex(entries[..n]);
      if entries[n].score > entries[k].score then n else k
  }

  /** What the trigger step hands to `add`: the trigger, when one is given and
      it is not the empty string, stripped as `add` strips it. */
  function TriggerCandidates(trigger: Option<string>): seq<string> {
    if trigger.Some? && trigger.value != "" then [Strip(trigger.value)] else []
  }

  /** What the character step hands to `add`: outside feature mode and for a
      non-empty mapping, the best character tag if its score reaches the
      character threshold. No blacklist applies to it. */
  function CharacterCandidates(character: seq<TagScore>, cfg: Config): seq<string> {
    if !cfg.featureMode && |character| > 0 then
      var best := character[FirstMaxIndex(character)];
      if best.score >= cfg.characterThreshold then [Strip(best.tag)] else []
    else []
  }

  /** The trimmed tags of the entries that `keep` accepts, in order. */
  function Kept(entries: seq<TagScore>, keep: TagScore -> bool): seq<string>
    decreases |entries|
  {
    if entries == [] then []
    else
      var n := |entries| - 1;
      Kept(entries[..n], keep) + (if keep(entries[n]) then [Strip(entries[n].tag)] else [])
  }

  /** One more entry adds its trimmed tag exactly when `keep` accepts it. */
  lemma KeptStep(entries: seq<TagScore>, i: nat, keep: TagScore -> bool)
    requires i < |entries|
    ensures keep(entries[i]) ==> Kept(entries[..i + 1], keep) == Kept(entries[..i], keep) + [Strip(entries[i].tag)]
    ensures !keep(entries[i]) ==> Kept(entries[..i + 1], keep) == Kept(entries[..i], keep)
  {
    assert entries[..i + 1][..i] == entries[..i];
  }

  /** The filters of the general loop as a test on one entry. */
  function GeneralFilter(cfg: Config): TagScore -> bool {
    e => GeneralPasses(e, cfg)
  }

  /** What the general loop hands to `add`, in source order: the trimmed tag
      of every entry that passes the filters. */
  function GeneralCandidates(general: seq<TagScore>, cfg: Config): seq<string> {
    Kept(general, GeneralFilter(cfg))
  }

  /** The candidates of the trigger and character steps, which run before the loop. */
  function LeadCandidates(character: seq<TagScore>, cfg: Config): seq<string> {
    TriggerCandidates(cfg.trigger) + CharacterCandidates(character, cfg)
  }

  /** The token list once the trigger and character steps are done. */
  function LeadTokens(character: seq<TagScore>, cfg: Config): seq<string> {
    AddAll([], LeadCandidates(character, cfg))
  }

  /** The final token list: every candidate, in step order, through `add`. */
  function CaptionTokens(general: seq<TagScore>, character: seq<TagScore>, cfg: Config): seq<string> {
    AddAll([], LeadCandidates(character, cfg) + GeneralCandidates(general, cfg))
  }

  /** The caption text `", ".join(tokens)`. */
  function CaptionText(general: seq<TagScore>, character: seq<TagScore>, cfg: Config): string {
    Join(CaptionTokens(general, character, cfg), Separator)
  }

  /** The loop of `build_caption` over the general mapping: each entry that
      passes the filters has its trimmed tag handed to `add`. */
  method AddGeneralTags(acc: TokenList, general: seq<TagScore>, cfg: Config)
    requires acc.Valid()
    modifies acc
    ensures acc.Valid()
    ensures acc.tokens == AddAll(old(acc.tokens), GeneralCandidates(general, cfg))
  {
    ghost var start := acc.tokens;
    assert general[..0] == [];
    for i := 0 to |general|
      invariant acc.Valid()
      invariant acc.tokens == AddAll(start, GeneralCandidates(general[..i], cfg))
    {
      KeptStep(general, i, GeneralFilter(cfg));
      var entry := general[i];
      assert GeneralFilter(cfg)(entry) == GeneralPasses(entry, cfg);
      if entry.score < cfg.generalThreshold {
        continue;
      }
      var tag := Strip(entry.tag);
      if tag == [] {
        continue;
      }
      if tag in BlacklistExact {
        continue;
      }
      var lowered := CaseFold(tag);
      if exists bad :: bad in BlacklistContains && Contains(lowered, bad) {
        continue;
      }
      if cfg.featureMode && '(' in tag && ')' in tag {
        continue;
      }
      assert GeneralPasses(entry, cfg);
      StripIdempotent(entry.tag);
      acc.Add(tag);
      AddAllSnoc(start, GeneralCandidates(general[..i], cfg), tag);
    }
    assert general[..|general|] == general;
  }

  /** `build_caption`: grows a fresh token list through `add` with the
      trigger, then the best character tag, then the general tags that pass
      the filters, and joins the tokens with ", ". */
  method BuildCaption(general: seq<TagScore>, character: seq<TagScore>, cfg: Config)
    returns (caption: string)
    ensures caption == Join(CaptionTokens(general, character, cfg), Separator)
  {
    var acc := new TokenList();
    ghost var lead: seq<string> := [];
    if cfg.trigger.Some? && cfg.trigger.value != "" {
      acc.Add(cfg.trigger.value);
      lead := lead + [Strip(cfg.trigger.value)];
    }
    assert lead == TriggerCandidates(cfg.trigger);
    assert acc.tokens == AddAll([], lead);
    if !cfg.featureMode && |character| > 0 {
      var best := character[FirstMaxIndex(character)];
      if best.score >= cfg.characterThreshold {
        ghost var before := lead;
        acc.Add(best.tag);
        lead := lead + [Strip(best.tag)];
        assert lead[..|lead| - 1] == before;
      }
    }
    assert lead == LeadCandidates(character, cfg);
    AddGeneralTags(acc, general, cfg);
    AddAllAppend([], lead, GeneralCandidates(general, cfg));
    caption := Join(acc.tokens, Separator);
  }
}
