/** The insertion-ordered, de-duplicating token list that `build_caption`
    grows through its inner `add` (tag_images.py:46-56): a list `tokens`, a
    set `seen` of what it already holds, and `add`, which strips a token and
    appends it unless it is empty or already seen. */
module Tokens {
  import opened Text

  /** No string occurs twice. */
  predicate Distinct(ts: seq<string>) {
    forall i, j :: 0 <= i < j < |ts| ==> ts[i] != ts[j]
  }

  /** What `add` guarantees of the list it grows: distinct, non-empty,
      trimmed tokens. */
  predicate WellFormed(ts: seq<string>) {
    Distinct(ts) && forall i :: 0 <= i < |ts| ==> ts[i] != [] && Trimmed(ts[i])
  }

  /** One `add` of an already-stripped token `t`. */
  function AddToken(ts: seq<string>, t: string): seq<string> {
    if t == [] || t in ts then ts else ts + [t]
  }

  lemma AddTokenWellFormed(ts: seq<string>, t: string)
    requires WellFormed(ts) && Trimmed(t)
    ensures WellFormed(AddToken(ts, t))
  {
    if t != [] && t !in ts {
      var r := ts + [t];
      forall i, j | 0 <= i < j < |r|
        ensures r[i] != r[j]
      {
        if j < |ts| {
          assert r[i] == ts[i] && r[j] == ts[j];
        } else {
          assert r[i] == ts[i];
        }
      }
    }
  }

  /** The tokens after adding every (stripped) candidate of `cs`, in order, to `acc`. */
  function AddAll(acc: seq<string>, cs: seq<string>): seq<string>
    decreases |cs|
  {
    if cs == [] then acc else AddToken(AddAll(acc, cs[..|cs| - 1]), cs[|cs| - 1])
  }

  /** Adding one more candidate is one more `add`. */
  lemma AddAllSnoc(acc: seq<string>, cs: seq<string>, c: string)
    ensures AddAll(acc, cs + [c]) == AddToken(AddAll(acc, cs), c)
  {
    assert (cs + [c])[..|cs|] == cs;
  }

  /** The position of the first occurrence of `x` in `s`. */
  ghost function IndexOf(s: seq<string>, x: string): (k: nat)
    requires x in s
    ensures k < |s| && s[k] == x
    ensures forall j :: 0 <= j < k ==> s[j] != x
  {
    if s[0] == x then 0 else 1 + IndexOf(s[1..], x)
  }

  lemma IndexOfAppend(s: seq<string>, c: string, x: string)
    requires x in s
    ensures IndexOf(s + [c], x) == IndexOf(s, x)
  {
    var k := IndexOf(s, x);
    assert (s + [c])[k] == x;
    assert forall j :: 0 <= j < k ==> (s + [c])[j] == s[j];
  }

  /** Adding a batch of candidates and then another is adding both in one go. */
  lemma {:induction false} AddAllAppend(acc: seq<string>, cs1: seq<string>, cs2: seq<string>)
    ensures AddAll(acc, cs1 + cs2) == AddAll(AddAll(acc, cs1), cs2)
    decreases |cs2|
  {
    if cs2 == [] {
      assert cs1 + cs2 == cs1;
    } else {
      var n := |cs2| - 1;
      assert (cs1 + cs2)[..|cs1 + cs2| - 1] == cs1 + cs2[..n];
      AddAllAppend(acc, cs1, cs2[..n]);
    }
  }

  /** Tokens already present stay where they are: `acc` is a prefix of the result,
      which grows by at most one token per candidate. */
  lemma {:induction false} AddAllExtends(acc: seq<string>, cs: seq<string>)
    ensures |acc| <= |AddAll(acc, cs)| <= |acc| + |cs|
    ensures AddAll(acc, cs)[..|acc|] == acc
    decreases |cs|
  {
    if cs != [] {
      var n := |cs| - 1;
      AddAllExtends(acc, cs[..n]);
      var r := AddAll(acc, cs[..n]);
      assert AddAll(acc, cs) == r || AddAll(acc, cs) == r + [cs[n]];
      assert (r + [cs[n]])[..|acc|] == r[..|acc|];
    }
  }

  /** A token is in the result exactly when it was there already or is a
      non-empty candidate. */
  lemma {:induction false} AddAllMembers(acc: seq<string>, cs: seq<string>, t: string)
    ensures t in AddAll(acc, cs) <==> t in acc || (t in cs && t != [])
    decreases |cs|
  {
    if cs != [] {
      var n := |cs| - 1;
      AddAllMembers(acc, cs[..n], t);
      assert cs == cs[..n] + [cs[n]];
      assert t in cs <==> t in cs[..n] || t == cs[n];
    }
  }

  /** Adding stripped candidates to a well-formed list keeps it well formed:
      no duplicates, no empty token, nothing untrimmed. */
  lemma {:induction false} AddAllWellFormed(acc: seq<string>, cs: seq<string>)
    requires WellFormed(acc)
    requires forall i :: 0 <= i < |cs| ==> Trimmed(cs[i])
    ensures WellFormed(AddAll(acc, cs))
    decreases |cs|
  {
    if cs != [] {
      var n := |cs| - 1;
      AddAllWellFormed(acc, cs[..n]);
      AddTokenWellFormed(AddAll(acc, cs[..n]), cs[n]);
    }
  }

  /** The tokens a batch adds come in the order of their first occurrence
      among the candidates. */
  lemma {:induction false} AddAllOrder(acc: seq<string>, cs: seq<string>)
    requires WellFormed(acc)
    requires forall i :: 0 <= i < |cs| ==> Trimmed(cs[i])
    ensures var r := AddAll(acc, cs);
      forall i :: |acc| <= i < |r| ==> r[i] in cs
    ensures var r := AddAll(acc, cs);
      forall i, j :: |acc| <= i < j < |r| ==> IndexOf(cs, r[i]) < IndexOf(cs, r[j])
    decreases |cs|
  {
    if cs != [] {
      var n := |cs| - 1;
      var c := cs[n];
      var front := cs[..n];
      var r0 := AddAll(acc, front);
      AddAllOrder(acc, front);
      AddAllExtends(acc, front);
      AddAllWellFormed(acc, front);
      assert cs == front + [c];
      forall i | |acc| <= i < |r0|
        ensures r0[i] in front && IndexOf(cs, r0[i]) == IndexOf(front, r0[i])
      {
        IndexOfAppend(front, c, r0[i]);
      }
      if c != [] && c !in r0 {
        assert c !in front by {
          if c in front {
            AddAllMembers(acc, front, c);
          }
        }
        assert IndexOf(cs, c) == n;
        assert AddAll(acc, cs) == r0 + [c];
      }
    }
  }

  /** The `tokens` list and `seen` set of `build_caption` together with `add`. */
  class TokenList {
    var tokens: seq<string>
    var seen: set<string>

    /** `seen` holds exactly the listed tokens, and the list is well formed. */
    ghost predicate Valid()
      reads this
    {
      (forall t :: t in seen <==> t in tokens) && WellFormed(tokens)
    }

    constructor ()
      ensures Valid() && tokens == []
    {
      tokens := [];
      seen := {};
    }

    /** `add(tok)`: strip `tok`; drop it if it is empty or already seen;
        otherwise record it in `seen` and append it. */
    method Add(tok: string)
      requires Valid()
      modifies this
      ensures Valid()
      ensures tokens == AddToken(old(tokens), Strip(tok))
    {
      var t := Strip(tok);
      if t != [] && t !in seen {
        AddTokenWellFormed(tokens, t);
        seen := seen + {t};
        tokens := tokens + [t];
      }
    }
  }
}
