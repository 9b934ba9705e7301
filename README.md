# Caption assembly of the PixAI tagging script, in Dafny

`tag_images.py` writes a text caption next to each image of a directory.
A caption is built from the tagger's two score mappings, `general` and
`character`, and four settings: `general_threshold`, `character_threshold`,
`trigger` and `feature_mode`. The script grows an insertion-ordered,
de-duplicating token list through an inner `add`. It first adds the trigger,
then (outside feature mode) the best-scoring character tag, then every
general tag that survives the filters. It returns the tokens joined with
", ". Files are picked by a case-insensitive test of their suffix against
`IMAGE_EXTS`.

The model has five modules:

- `Text` (text.dfy) models the string operations the script takes from
  Python's `str`: `strip()` with Python's whitespace set, `casefold()`,
  `lower()`, the substring test `sub in s` and `", ".join`.
- `Tokens` (tokens.dfy) models the token list.
  - Class `TokenList` has the `tokens` list and `seen` set as fields. Its
    method `Add` is `add`.
  - Function `AddAll` is the specification: the tokens after a sequence of
    `add` calls. Its lemmas cover membership, order, well-formedness and
    composition.
- `Caption` (caption.dfy) models `build_caption`.
  - The constants and `Config` hold its inputs.
  - `BuildCaption` is the imperative procedure. Its general loop is split
    out as `AddGeneralTags`.
  - `CaptionTokens` / `CaptionText` specify the result. Every candidate each
    step hands to `add` goes, in step order, through `AddAll`.
- `CaptionProperties` (caption_properties.dfy) proves the promises of
  `build_caption` about that specification:
  - no duplicate, empty or untrimmed token;
  - the trigger comes first;
  - the single character tag is the first maximum and is gated by its
    threshold;
  - every general tag passes the filters and none is lost;
  - general tags keep source order;
  - the feature-mode behaviour;
  - the empty caption.
- `CaptionExamples` (caption_examples.dfy) evaluates the model on concrete
  inputs.
- `Images` (images.dfy) models the suffix test of `is_image` and
  `iter_images`, and the filtering loop of `iter_images` over a listing.

The tagger result is an input. Each mapping is a `seq<TagScore>` in the
mapping's iteration order. Scores are `real`.

Three details of the code shape the model:

- The code applies the blacklists only to general tags. The trigger and the
  character tag are not checked (`CharacterSkipsBlacklists`).
- The code applies the feature-mode parenthesis filter only to general tags.
  A trigger with both parentheses is still emitted
  (`FeatureModeKeepsParenthesisedTrigger`).
- The tie between equal character scores is settled as Python's `max`
  settles it: the first entry of maximal score wins.

## Model

| member | source | states |
|---|---|---|
| Text.IsSpace | tag_images.py:50 | the characters `strip()` removes: exactly those for which Python's `str.isspace()` holds |
| Text.Strip | tag_images.py:50 | `strip()` yields a trimmed string no longer than its input |
| Text.StripIsSlice | tag_images.py:50 | the stripped string is a contiguous slice of the input, and everything cut from either end is whitespace |
| Text.StripTrimmed | tag_images.py:50 | stripping a trimmed string leaves it unchanged |
| Text.StripIdempotent | tag_images.py:50 | stripping twice equals stripping once, so `add` of an already stripped tag stores that tag |
| Text.StripEmptyIff | tag_images.py:50-52 | the stripped token is empty exactly when the input is all whitespace, the case `add` drops |
| Text.CaseFoldChar | tag_images.py:85 | every character folds to at least one character; ASCII capitals, long s, the Kelvin sign, sharp s, the Latin ligatures and the characters folding to an ASCII letter next to a modifier or combining mark fold as in Python |
| Text.CaseFold | tag_images.py:85 | `casefold()` concatenates the folds of the characters and never shortens the string |
| Text.CaseFoldNoUpper | tag_images.py:85 | no ASCII capital survives the case fold |
| Text.Plain | tag_images.py:85 | printable ASCII without capitals, the strings `casefold()` leaves alone |
| Text.CaseFoldPlain | tag_images.py:85 | printable ASCII without capitals folds to itself |
| Text.Lower | tag_images.py:29 | `lower()` keeps the length and leaves no ASCII capital; each capital becomes its small letter, the Kelvin sign becomes "k", and every other character is unchanged |
| Text.LowerIdempotent | tag_images.py:29 | lowering an already lowered suffix changes nothing |
| Text.Contains | tag_images.py:86 | Python's `sub in s`, decided by testing each start position from the left |
| Text.ContainsIff | tag_images.py:86 | `bad in lowered` holds exactly when `bad` occurs at some position of `lowered` |
| Text.Join | tag_images.py:94 | `sep.join(ts)`: the pieces in order with `sep` between neighbours, "" for no pieces |
| Text.JoinStartsWithFirst | tag_images.py:94 | the joined caption begins with the first token |
| Text.JoinEmptyIff | tag_images.py:94 | joining non-empty tokens gives "" exactly when there are no tokens |
| Tokens.AddToken | tag_images.py:50-56 | one `add` of a stripped token: the list is unchanged when the token is empty or already listed, and gains it at the end otherwise |
| Tokens.AddTokenWellFormed | tag_images.py:49-56 | one `add` of a trimmed token keeps the list distinct, non-empty and trimmed |
| Tokens.AddAll | tag_images.py:49-56 | the token list after `add` is called on each candidate in turn, starting from a given list |
| Tokens.AddAllSnoc | tag_images.py:49-56 | handing one more candidate to `add` is one more `add` step |
| Tokens.AddAllAppend | tag_images.py:58-92 | adding the candidates of successive steps equals adding them all in one go |
| Tokens.AddAllExtends | tag_images.py:53-56 | tokens already listed stay in place; each candidate adds at most one token |
| Tokens.AddAllMembers | tag_images.py:50-56 | a token ends up listed exactly when it was listed already or is a non-empty candidate |
| Tokens.AddAllWellFormed | tag_images.py:49-56 | adding trimmed candidates keeps the list free of duplicates and empty tokens |
| Tokens.AddAllOrder | tag_images.py:53-56 | newly added tokens are candidates, and they appear in the order of their first occurrence among the candidates |
| Tokens.TokenList.constructor | tag_images.py:46-47 | a fresh list and seen set are empty and consistent |
| Tokens.TokenList.Add | tag_images.py:49-56 | `add` strips its argument; it appends the token and records it in `seen` unless the token is empty or already seen; `seen` stays equal to the listed tokens |
| Caption.BlacklistWordsFolded | tag_images.py:17-25 | every word of `BLACKLIST_EXACT` and `BLACKLIST_CONTAINS` is non-empty and its own case fold |
| Caption.HasBlacklistedPart | tag_images.py:85-86 | the case-folded tag contains a `BLACKLIST_CONTAINS` word |
| Caption.IsParenthesised | tag_images.py:89 | the tag holds both "(" and ")" |
| Caption.GeneralPasses | tag_images.py:75-90 | a general entry survives the loop's filters: its score is not below the general threshold, its stripped tag is non-empty, not in `BLACKLIST_EXACT`, holds no `BLACKLIST_CONTAINS` word in its case fold and, in feature mode, lacks one of the parentheses |
| Caption.TriggerCandidates | tag_images.py:58-59 | the trigger step hands `add` the stripped trigger when a non-empty trigger is given, and nothing otherwise |
| Caption.CharacterCandidates | tag_images.py:61-68 | outside feature mode and for a non-empty mapping, the character step hands `add` the stripped tag of the first maximal entry when its score reaches the character threshold, and nothing otherwise |
| Caption.GeneralCandidates | tag_images.py:70-92 | the trimmed tags the general loop hands to `add`, in source order |
| Caption.LeadCandidates | tag_images.py:58-68 | what the trigger and character steps hand to `add`, trigger first |
| Caption.LeadTokens | tag_images.py:58-68 | the token list once the trigger and character steps are done |
| Caption.FirstMaxIndex | tag_images.py:63 | `max` by score picks an entry of maximal score, and every earlier entry scores strictly less (the first maximum) |
| Caption.KeptStep | tag_images.py:70-92 | one more entry contributes its trimmed tag exactly when the filter accepts it |
| Caption.CaptionTokens | tag_images.py:46-92 | the tokens of `build_caption`: the trigger, character and general candidates, in that order, through `add` from an empty list |
| Caption.CaptionText | tag_images.py:94 | the caption is the tokens joined with ", " |
| Caption.AddGeneralTags | tag_images.py:70-92 | the general loop leaves the list equal to the old list with every passing entry's trimmed tag added in source order |
| Caption.BuildCaption | tag_images.py:46-94 | the caption is the join with ", " of the tokens obtained by adding the trigger, the selected character tag and the passing general tags, in that order |
| CaptionProperties.KeptSource | tag_images.py:70-92 | every kept tag comes from an accepted entry and is its trimmed tag |
| CaptionProperties.KeptFromEntry | tag_images.py:70-92 | every accepted entry contributes its trimmed tag |
| CaptionProperties.KeptMembers | tag_images.py:70-92 | a tag is kept exactly when some accepted entry trims to it |
| CaptionProperties.KeptTrimmed | tag_images.py:78 | every kept tag is trimmed |
| CaptionProperties.GeneralCandidatesMembers | tag_images.py:70-92 | a tag is a general candidate exactly when some entry passes the filters and trims to it |
| CaptionProperties.GeneralCandidatesTrimmed | tag_images.py:78-80 | every general candidate is non-empty and trimmed |
| CaptionProperties.CandidatesTrimmed | tag_images.py:50 | every candidate of every step is trimmed |
| CaptionProperties.CaptionWellFormed | tag_images.py:49-56 | the emitted tokens never repeat, and each is non-empty and trimmed |
| CaptionProperties.TriggerStep | tag_images.py:58-59 | the trigger step leaves the stripped trigger, or nothing if the trigger is absent or blank |
| CaptionProperties.TriggerComesFirst | tag_images.py:58-59 | a trigger that is non-blank after stripping is the first token, and the caption text starts with it |
| CaptionProperties.LeadTokensShape | tag_images.py:58-68 | after the trigger and character steps the list is the trigger token plus at most one token; in feature mode or with no character entries it is just the trigger token |
| CaptionProperties.CharacterSelection | tag_images.py:61-68 | outside feature mode only the first maximal character entry is considered; its trimmed tag follows the trigger token when its score reaches the character threshold, and nothing is added otherwise |
| CaptionProperties.FirstMaxIndexUnique | tag_images.py:63 | the two properties of `FirstMaxIndex` single out one entry, the first maximal one |
| CaptionProperties.SplitAtLead | tag_images.py:58-92 | the final tokens are the general candidates added to the tokens left by the trigger and character steps, which are well formed |
| CaptionProperties.GeneralTagsFiltered | tag_images.py:75-92 | tokens from earlier steps form a prefix; every token the loop adds came from an entry scoring at least the general threshold, is not exactly blacklisted, has no blacklisted part in its case fold and, in feature mode, lacks one of the parentheses |
| CaptionProperties.GeneralTagsInSourceOrder | tag_images.py:70-92 | the tokens the loop adds are general candidates, in the order of their first occurrence in the general mapping |
| CaptionProperties.GeneralTagsComplete | tag_images.py:70-92 | every general tag that passes the filters appears in the caption |
| CaptionProperties.FeatureModeTokens | tag_images.py:61-90 | in feature mode the trigger token comes first, and every later token is a general candidate without both parentheses |
| CaptionProperties.CaptionEmptyIff | tag_images.py:94 | the caption text is "" exactly when no token was emitted |
| CaptionProperties.EmptyInputsGiveEmptyCaption | tag_images.py:46-94 | empty mappings with no trigger give "" |
| CaptionExamples.PlainTagClean | tag_images.py:85-87 | a plain lower-case ASCII tag missing a letter of each substring-blacklist word has no blacklisted part |
| CaptionExamples.BlueSkyPasses | tag_images.py:75-90 | "blue_sky" at 0.9 passes every general filter at threshold 0.35 |
| CaptionExamples.LogoFails | tag_images.py:82-83 | "logo" is dropped by the exact blacklist |
| CaptionExamples.BelowThreshold | tag_images.py:75-76 | an entry scoring below the general threshold is dropped |
| CaptionExamples.GeneralExample | tag_images.py:70-92 | of blue_sky 0.9, logo 0.95 and long_hair 0.2 at threshold 0.35, only "blue_sky" is a general candidate |
| CaptionExamples.TriggerExample | tag_images.py:58-59 | the trigger "mychar" is handed to `add` as is |
| CaptionExamples.CharacterExample | tag_images.py:61-68 | of alice 0.9 and bob 0.6 at threshold 0.85, "alice" is selected outside feature mode, and nothing in feature mode |
| CaptionExamples.JoinExample | tag_images.py:94 | the joins of the example tokens with ", " |
| CaptionExamples.CaptionExample | tag_images.py:46-94 | the example inputs outside feature mode give "mychar, alice, blue_sky" |
| CaptionExamples.FeatureModeCaptionExample | tag_images.py:46-94 | the same inputs in feature mode give "mychar, blue_sky" |
| CaptionExamples.CharacterSkipsBlacklists | tag_images.py:61-68 | a "watermark" character tag is still emitted, although the same tag would be filtered as a general tag |
| CaptionExamples.BlankTriggerSkipped | tag_images.py:50-59 | a trigger of spaces only contributes no token |
| CaptionExamples.FeatureModeKeepsParenthesisedTrigger | tag_images.py:58-90 | in feature mode a trigger with both parentheses is still emitted |
| CaptionExamples.BlacklistedPartDropped | tag_images.py:85-87 | a general entry whose trimmed tag has a blacklisted part in its case fold is dropped |
| CaptionExamples.LigatureFoldsToLogo | tag_images.py:85-86 | the tag "\u{FB02}ogo" (with the "fl" ligature) folds to a string holding "logo" |
| CaptionExamples.LigatureLogoDropped | tag_images.py:85-87 | that general tag is therefore dropped, although it does not contain "logo" as written |
| Images.IsImageSuffix | tag_images.py:29 | `p.suffix.lower() in IMAGE_EXTS` |
| Images.IsImage | tag_images.py:28-29 | `is_image`: a regular file whose suffix passes the test |
| Images.ImagePaths | tag_images.py:126-130 | the paths `iter_images` yields for a listing: the image files, in listing order |
| Images.ExtsAreLower | tag_images.py:15 | every entry of IMAGE_EXTS is already lower case |
| Images.ExtsHaveSmallLettersOnly | tag_images.py:15 | every character of an entry of IMAGE_EXTS is a dot or a small ASCII letter other than "k" |
| Images.SameIgnoringCaseLower | tag_images.py:29 | strings that differ only in the case of ASCII letters have the same `lower()` |
| Images.IsImageSuffixIff | tag_images.py:28-29 | a suffix is accepted exactly when, position by position, it matches one of IMAGE_EXTS with the same character or the capital of its small letter |
| Images.CaseInsensitive | tag_images.py:29 | two suffixes that differ only in the case of ASCII letters get the same answer |
| Images.ImageSuffixShape | tag_images.py:15 | an accepted suffix is a dot followed by three or four characters, with no other dot |
| Images.SuffixExamples | tag_images.py:15-29 | ".JPG", ".Tiff" and ".png" are accepted; ".gif", "" and "jpg" are not |
| Images.ImagePathsMembers | tag_images.py:126-130 | a path is yielded exactly when some listed entry with that path is a file with an accepted suffix |
| Images.ListImages | tag_images.py:123-130 | the filter loop yields, in listing order, exactly the files with an accepted suffix |

## Left out

- `get_pixai_tags` (tag_images.py:40-44) is a call into a model library. Its two mappings are parameters of the model, and the image argument goes away.
- The `isinstance` guards (tag_images.py:67, 71-74) and the `except` around `max` (tag_images.py:62-65) are not modelled. Tags are strings and scores are numbers by type. `max` cannot fail on a non-empty mapping.
- Scores are `real`. Floating-point rounding, NaN and the mixing of ints and floats are not modelled. Under Python's float comparison, a NaN general score would pass the threshold test; the model cannot express that case.
- Text.CaseFold: folds exactly as Python does every character whose fold holds an ASCII letter. Other characters outside ASCII are left as they are instead of being folded to other characters outside ASCII. The blacklist words are ASCII, so this does not change whether a folded tag contains one of them; it only changes the folded string itself.
- Text.Lower: covers ASCII capitals and the Kelvin sign, the only characters whose `lower()` is a single ASCII character. No extension contains "k", and every other non-ASCII character lowers to something outside IMAGE_EXTS. So the membership answer is the same as Python's.
- Mappings are sequences and may repeat a tag, which a Python dict cannot. The proved properties hold for every sequence, so they cover dicts too.
- `Path.suffix` (the text from the last dot of the final path component, empty when the name's only dot is its first character, so a file named ".png" has no suffix), `os.scandir` and `entry.is_file()` are library and filesystem behaviour. The model takes each entry's path, file flag and suffix as given.
- `process_one` (tag_images.py:98-120) is not part of this model: it skips existing outputs and writes the caption file.
- `main` (tag_images.py:133 onwards) is not part of this model: it parses arguments, fans work out to a thread pool and shows a progress bar.
- Running the caption assembly twice on the same inputs gives the same result; in the model this holds because `CaptionText` is a function, so no lemma states it.
