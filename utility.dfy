/** Utility.Join: joining a non-empty array of strings with an infix that may be
    null, and how it relates to String.split(" "). */
module Utility {
  import opened Wrappers
  import opened JavaText

  /** tokens[0] + infix + tokens[1] + ... + infix + tokens[n-1]: the reference
      meaning of a join, with no infix after the last token. */
  function Joined(tokens: seq<string>, infix: string): string
    requires |tokens| >= 1
  {
    if |tokens| == 1 then tokens[0] else tokens[0] + infix + Joined(tokens[1..], infix)
  }

  /** What Join appends after each token but the last: nothing for a null infix. */
  function InfixText(infix: Option<string>): string {
    if infix.Some? then infix.value else ""
  }

  /** Plain concatenation of the tokens. */
  function Concat(tokens: seq<string>): string {
    if |tokens| == 0 then "" else tokens[0] + Concat(tokens[1..])
  }

  /** The sum of the token lengths. */
  function TotalLength(tokens: seq<string>): nat {
    if |tokens| == 0 then 0 else |tokens[0]| + TotalLength(tokens[1..])
  }

  /** What the builder holds after the loop has handled the tokens in `done`:
      each of them followed by the infix. */
  function EachThenInfix(done: seq<string>, infix: string): string {
    if |done| == 0 then "" else EachThenInfix(done[..|done| - 1], infix) + done[|done| - 1] + infix
  }

  /** Utility.Join. The Java loop runs while `i != tokens.length - 1`, appending
      `tokens[i]` and (unless the infix is null) the infix, and then appends the
      last token; an empty array faults on `tokens[0]`, hence the precondition. */
  method Join(tokens: seq<string>, infix: Option<string>) returns (r: string)
    requires |tokens| >= 1
    ensures r == Joined(tokens, InfixText(infix))
  {
    var sb := "";
    var i := 0;
    while i != |tokens| - 1
      invariant 0 <= i <= |tokens| - 1
      invariant sb == EachThenInfix(tokens[..i], InfixText(infix))
    {
      assert tokens[..i + 1][..i] == tokens[..i];
      sb := sb + tokens[i];
      if infix.Some? {
        sb := sb + infix.value;
      }
      i := i + 1;
    }
    sb := sb + tokens[|tokens| - 1];
    EachThenInfixThenLast(tokens, InfixText(infix));
    r := sb;
  }

  /** The loop's builder followed by the last token is the join. */
  lemma {:induction false} EachThenInfixThenLast(tokens: seq<string>, infix: string)
    requires |tokens| >= 1
    ensures EachThenInfix(tokens[..|tokens| - 1], infix) + tokens[|tokens| - 1] == Joined(tokens, infix)
    decreases |tokens|
  {
    if |tokens| > 1 {
      var init := tokens[..|tokens| - 1];
      JoinedSnoc(init, tokens[|tokens| - 1], infix);
      EachThenInfixThenLast(init, infix);
      assert init[..|init| - 1] == tokens[..|tokens| - 2];
      assert init + [tokens[|tokens| - 1]] == tokens;
    }
  }

  /** Joining one more token adds the infix and that token at the end. */
  lemma {:induction false} JoinedSnoc(tokens: seq<string>, last: string, infix: string)
    requires |tokens| >= 1
    ensures Joined(tokens + [last], infix) == Joined(tokens, infix) + infix + last
    decreases |tokens|
  {
    if |tokens| > 1 {
      assert (tokens + [last])[1..] == tokens[1..] + [last];
      JoinedSnoc(tokens[1..], last, infix);
    }
  }

  /** A single-element array comes back unchanged. */
  lemma JoinedSingle(token: string, infix: string)
    ensures Joined([token], infix) == token
  {
  }

  /** With a null infix the tokens are simply concatenated. */
  lemma {:induction false} JoinedNullInfix(tokens: seq<string>)
    requires |tokens| >= 1
    ensures Joined(tokens, InfixText(None)) == Concat(tokens)
    decreases |tokens|
  {
    if |tokens| > 1 {
      JoinedNullInfix(tokens[1..]);
    }
  }

  /** The length of the join: every token plus one infix between each pair. */
  lemma {:induction false} JoinedLength(tokens: seq<string>, infix: string)
    requires |tokens| >= 1
    ensures |Joined(tokens, infix)| == TotalLength(tokens) + (|tokens| - 1) * |infix|
    decreases |tokens|
  {
    if |tokens| > 1 {
      JoinedLength(tokens[1..], infix);
    }
  }

  /** The first token starts the join and the last token ends it. */
  lemma {:induction false} JoinedEnds(tokens: seq<string>, infix: string)
    requires |tokens| >= 1
    ensures tokens[0] <= Joined(tokens, infix)
    ensures var r := Joined(tokens, infix);
      |tokens[|tokens| - 1]| <= |r| && r[|r| - |tokens[|tokens| - 1]|..] == tokens[|tokens| - 1]
    decreases |tokens|
  {
    if |tokens| > 1 {
      JoinedEnds(tokens[1..], infix);
      var r := Joined(tokens, infix);
      var rest := Joined(tokens[1..], infix);
      assert r == (tokens[0] + infix) + rest;
      assert r[|r| - |rest|..] == rest;
    }
  }

  // ---------------------------------------------------------------------------
  // Join and split(" ") are inverse to each other
  // ---------------------------------------------------------------------------

  /** Prefixing a string to the first token prefixes it to the join. */
  lemma JoinedPrefixFirst(c: string, tokens: seq<string>, infix: string)
    requires |tokens| >= 1
    ensures Joined([c + tokens[0]] + tokens[1..], infix) == c + Joined(tokens, infix)
  {
    var t := [c + tokens[0]] + tokens[1..];
    if |tokens| > 1 {
      assert t[1..] == tokens[1..];
    }
  }

  /** Joining the pieces of a string with a single space gives the string back. */
  lemma {:induction false} JoinedRawSplit(s: string)
    ensures Joined(RawSplit(s), " ") == s
    decreases |s|
  {
    if |s| > 0 {
      var rest := RawSplit(s[1..]);
      JoinedRawSplit(s[1..]);
      if s[0] == ' ' {
        assert ([""] + rest)[1..] == rest;
      } else {
        JoinedPrefixFirst([s[0]], rest, " ");
      }
      assert [s[0]] + s[1..] == s;
    }
  }

  /** Splitting the join of space-free tokens gives the tokens back. */
  lemma {:induction false} RawSplitJoined(tokens: seq<string>)
    requires |tokens| >= 1
    requires forall i :: 0 <= i < |tokens| ==> ' ' !in tokens[i]
    ensures RawSplit(Joined(tokens, " ")) == tokens
    decreases |tokens|
  {
    if |tokens| == 1 {
      RawSplitNoSpace(tokens[0]);
    } else {
      RawSplitJoined(tokens[1..]);
      RawSplitWord(tokens[0], Joined(tokens[1..], " "));
    }
  }

  /** Java's split(" ") inverts the join when no token holds a space and the last
      one is not empty (split drops trailing empty tokens). */
  lemma SplitJoined(tokens: seq<string>)
    requires |tokens| >= 1
    requires forall i :: 0 <= i < |tokens| ==> ' ' !in tokens[i]
    requires tokens[|tokens| - 1] != ""
    ensures Split(Joined(tokens, " ")) == tokens
  {
    if |tokens| == 1 {
    } else {
      var s := Joined(tokens, " ");
      RawSplitJoined(tokens);
      assert s == tokens[0] + " " + Joined(tokens[1..], " ");
      assert s[|tokens[0]|] == ' ';
    }
  }

  /** The last piece of a string that does not end in a space is not empty. */
  lemma {:induction false} RawSplitLastNotEmpty(s: string)
    requires s != "" && s[|s| - 1] != ' '
    ensures var r := RawSplit(s); r[|r| - 1] != ""
    decreases |s|
  {
    if |s| > 1 {
      RawSplitLastNotEmpty(s[1..]);
    }
  }

  /** Joining the tokens of split(" ") with a space gives back any line that is
      not empty and does not end in a space. */
  lemma JoinedSplit(s: string)
    requires s != "" && s[|s| - 1] != ' '
    ensures |Split(s)| >= 1 && Joined(Split(s), " ") == s
  {
    if ' ' in s {
      RawSplitLastNotEmpty(s);
      JoinedRawSplit(s);
    }
  }

}
