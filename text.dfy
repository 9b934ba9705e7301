/** String helpers that tag_images.py takes from Python's `str`: `strip()`,
    `casefold()`, `lower()`, the substring test `sub in s` and `", ".join`. */
module Text {

  /** Python's `str.isspace()` on one character: tab to carriage return,
      the four information separators U+001C to U+001F, space, U+0085,
      no-break space, U+1680, U+2000 to U+200A, the line and paragraph
      separators, U+202F, U+205F and U+3000. `str.strip()` with no argument
      removes exactly these from both ends. */
  predicate IsSpace(c: char) {
    || '\t' <= c <= '\r'
    || '\U{1C}' <= c <= ' '
    || c == '\U{85}' || c == '\U{A0}' || c == '\U{1680}'
    || '\U{2000}' <= c <= '\U{200A}'
    || c == '\U{2028}' || c == '\U{2029}' || c == '\U{202F}' || c == '\U{205F}' || c == '\U{3000}'
  }

  predicate AllSpace(s: string) {
    forall i :: 0 <= i < |s| ==> IsSpace(s[i])
  }

  /** Neither end of `s` is whitespace. */
  predicate Trimmed(s: string) {
    s == [] || (!IsSpace(s[0]) && !IsSpace(s[|s| - 1]))
  }

  /** `s.strip()`: leading whitespace is removed first, then trailing. */
  function Strip(s: string): (r: string)
    ensures |r| <= |s|
    ensures Trimmed(r)
    decreases |s|
  {
    if |s| > 0 && IsSpace(s[0]) then Strip(s[1..])
    else if |s| > 0 && IsSpace(s[|s| - 1]) then Strip(s[..|s| - 1])
    else s
  }

  /** `s[i..j]` is the result of stripping `s`: everything before `i` and
      from `j` on is whitespace. */
  ghost predicate StripsTo(s: string, i: int, j: int, r: string) {
    && 0 <= i <= j <= |s| && r == s[i..j]
    && (forall m :: 0 <= m < i ==> IsSpace(s[m]))
    && (forall m :: j <= m < |s| ==> IsSpace(s[m]))
  }

  lemma StripsToCons(s: string, i: int, j: int, r: string)
    requires |s| > 0 && IsSpace(s[0])
    requires StripsTo(s[1..], i, j, r)
    ensures StripsTo(s, i + 1, j + 1, r)
  {
    assert s[1..][i..j] == s[i + 1..j + 1];
    forall m | 0 <= m < i + 1 ensures IsSpace(s[m]) {
      if m > 0 { assert s[m] == s[1..][m - 1]; }
    }
    forall m | j + 1 <= m < |s| ensures IsSpace(s[m]) {
      assert s[m] == s[1..][m - 1];
    }
  }

  lemma StripsToSnoc(s: string, i: int, j: int, r: string)
    requires |s| > 0 && IsSpace(s[|s| - 1])
    requires StripsTo(s[..|s| - 1], i, j, r)
    ensures StripsTo(s, i, j, r)
  {
    assert s[..|s| - 1][i..j] == s[i..j];
    forall m | 0 <= m < i ensures IsSpace(s[m]) {
      assert s[m] == s[..|s| - 1][m];
    }
    forall m | j <= m < |s| ensures IsSpace(s[m]) {
      if m < |s| - 1 { assert s[m] == s[..|s| - 1][m]; }
    }
  }

  /** Stripping removes whitespace only: what is left is the slice of `s`
      from `i`, and everything cut off on either side was whitespace. */
  lemma {:induction false} StripIsSlice(s: string) returns (i: nat)
    ensures StripsTo(s, i, i + |Strip(s)|, Strip(s))
    decreases |s|
  {
    if |s| > 0 && IsSpace(s[0]) {
      var k := StripIsSlice(s[1..]);
      StripsToCons(s, k, k + |Strip(s)|, Strip(s));
      i := k + 1;
    } else if |s| > 0 && IsSpace(s[|s| - 1]) {
      i := StripIsSlice(s[..|s| - 1]);
      StripsToSnoc(s, i, i + |Strip(s)|, Strip(s));
    } else {
      i := 0;
    }
  }

  /** A string that is already trimmed is left as it is. */
  lemma StripTrimmed(s: string)
    requires Trimmed(s)
    ensures Strip(s) == s
  {
  }

  /** Stripping twice is the same as stripping once. */
  lemma StripIdempotent(s: string)
    ensures Strip(Strip(s)) == Strip(s)
  {
    StripTrimmed(Strip(s));
  }

  /** `s.strip()` is empty exactly when `s` is whitespace only (or empty). */
  lemma StripEmptyIff(s: string)
    ensures Strip(s) == [] <==> AllSpace(s)
  {
    var i := StripIsSlice(s);
    if Strip(s) != [] {
      assert s[i] == Strip(s)[0];
    }
  }

  /** ASCII capital letter. */
  predicate IsAsciiUpper(c: char) {
    'A' <= c <= 'Z'
  }

  /** The characters outside ASCII whose full case fold (Unicode
      CaseFolding.txt, statuses C and F) holds an ASCII letter: long s, the
      Kelvin sign, sharp s, the Latin ligatures, and the letters that fold to
      an ASCII letter next to a modifier or combining mark. */
  const AsciiFolds: map<char, string> := map[
    '\U{017F}' := "s", '\U{212A}' := "k",
    '\U{00DF}' := "ss", '\U{1E9E}' := "ss",
    '\U{0130}' := "i\U{0307}", '\U{0149}' := "\U{02BC}n", '\U{01F0}' := "j\U{030C}",
    '\U{1E96}' := "h\U{0331}", '\U{1E97}' := "t\U{0308}", '\U{1E98}' := "w\U{030A}",
    '\U{1E99}' := "y\U{030A}", '\U{1E9A}' := "a\U{02BE}",
    '\U{FB00}' := "ff", '\U{FB01}' := "fi", '\U{FB02}' := "fl", '\U{FB03}' := "ffi",
    '\U{FB04}' := "ffl", '\U{FB05}' := "st", '\U{FB06}' := "st"
  ]

  /** Python's full case fold of one character, exact for every character
      whose fold holds an ASCII letter. Any other character outside ASCII
      folds to characters outside ASCII; the model leaves it as it is. */
  function CaseFoldChar(c: char): (r: string)
    ensures |r| >= 1
  {
    if c < '\U{80}' then (if IsAsciiUpper(c) then [(c as int + 32) as char] else [c])
    else if c in AsciiFolds then AsciiFolds[c]
    else [c]
  }

  /** `s.casefold()`: the folds of the characters, concatenated. */
  function CaseFold(s: string): (r: string)
    ensures |r| >= |s|
    decreases |s|
  {
    if s == [] then [] else CaseFoldChar(s[0]) + CaseFold(s[1..])
  }

  /** No ASCII capital survives the case fold. */
  lemma {:induction false} CaseFoldNoUpper(s: string)
    ensures forall i :: 0 <= i < |CaseFold(s)| ==> !IsAsciiUpper(CaseFold(s)[i])
    decreases |s|
  {
    if s != [] {
      CaseFoldNoUpper(s[1..]);
      var head := CaseFoldChar(s[0]);
      assert forall i :: 0 <= i < |head| ==> !IsAsciiUpper(head[i]);
    }
  }

  /** Printable ASCII without capitals: lower-case letters, digits, ASCII
      punctuation and the space. */
  predicate Plain(s: string) {
    forall i :: 0 <= i < |s| ==> ' ' <= s[i] <= '~' && !IsAsciiUpper(s[i])
  }

  /** A plain string folds to itself. */
  lemma {:induction false} CaseFoldPlain(s: string)
    requires Plain(s)
    ensures CaseFold(s) == s
    decreases |s|
  {
    if s != [] {
      CaseFoldPlain(s[1..]);
      assert s == [s[0]] + s[1..];
    }
  }

  /** `str.lower()` on one character, for the characters whose lower case is
      a single ASCII character: the ASCII capitals and the Kelvin sign. */
  function LowerChar(c: char): char {
    if 'A' <= c <= 'Z' then (c as int + 32) as char
    else if c == '\U{212A}' then 'k'
    else c
  }

  /** `s.lower()`, character by character (see LowerChar): no ASCII capital
      is left, each capital becomes its small letter, the Kelvin sign
      becomes "k", and every other character stays as it is. */
  function Lower(s: string): (r: string)
    ensures |r| == |s|
    ensures forall i :: 0 <= i < |r| ==> !IsAsciiUpper(r[i])
    ensures forall i :: 0 <= i < |s| && IsAsciiUpper(s[i]) ==>
      'a' <= r[i] <= 'z' && r[i] as int - 32 == s[i] as int
    ensures forall i :: 0 <= i < |s| && s[i] == '\U{212A}' ==> r[i] == 'k'
    ensures forall i :: 0 <= i < |s| && !IsAsciiUpper(s[i]) && s[i] != '\U{212A}' ==> r[i] == s[i]
  {
    seq(|s|, i requires 0 <= i < |s| => LowerChar(s[i]))
  }

  /** Lowering twice is lowering once. */
  lemma LowerIdempotent(s: string)
    ensures Lower(Lower(s)) == Lower(s)
  {
  }

  /** `sub` occurs in `s` starting at index `i`. */
  ghost predicate OccursAt(s: string, sub: string, i: int) {
    0 <= i && i + |sub| <= |s| && s[i..i + |sub|] == sub
  }

  /** Python's `sub in s` on strings. */
  function Contains(s: string, sub: string): bool
    decreases |s|
  {
    if |sub| > |s| then false
    else if s[..|sub|] == sub then true
    else Contains(s[1..], sub)
  }

  /** Contains finds `sub` exactly when it occurs somewhere in `s`. */
  lemma {:induction false} ContainsIff(s: string, sub: string)
    ensures Contains(s, sub) <==> exists i :: OccursAt(s, sub, i)
    decreases |s|
  {
    if |sub| > |s| {
      assert forall i :: !OccursAt(s, sub, i);
    } else if s[..|sub|] == sub {
      assert OccursAt(s, sub, 0);
    } else {
      ContainsIff(s[1..], sub);
      if Contains(s[1..], sub) {
        var i :| OccursAt(s[1..], sub, i);
        assert s[i + 1..i + 1 + |sub|] == s[1..][i..i + |sub|];
        assert OccursAt(s, sub, i + 1);
      } else {
        forall i | OccursAt(s, sub, i)
          ensures false
        {
          assert i != 0;
          assert s[1..][i - 1..i - 1 + |sub|] == s[i..i + |sub|];
          assert OccursAt(s[1..], sub, i - 1);
        }
      }
    }
  }

  /** `sep.join(ts)`. */
  function Join(ts: seq<string>, sep: string): string
    decreases |ts|
  {
    if |ts| == 0 then ""
    else if |ts| == 1 then ts[0]
    else ts[0] + sep + Join(ts[1..], sep)
  }

  /** The joined text begins with the first piece. */
  lemma {:induction false} JoinStartsWithFirst(ts: seq<string>, sep: string)
    requires |ts| > 0
    ensures |ts[0]| <= |Join(ts, sep)| && Join(ts, sep)[..|ts[0]|] == ts[0]
  {
    if |ts| > 1 {
      assert Join(ts, sep) == ts[0] + (sep + Join(ts[1..], sep));
    }
  }

  /** Joining non-empty pieces gives the empty string only when there are none. */
  lemma {:induction false} JoinEmptyIff(ts: seq<string>, sep: string)
    requires forall i :: 0 <= i < |ts| ==> ts[i] != []
    ensures Join(ts, sep) == [] <==> ts == []
  {
    if |ts| > 0 {
      JoinStartsWithFirst(ts, sep);
    }
  }
}
