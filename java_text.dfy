/** The parts of java.lang.String and java.lang.Integer that the plugin relies on,
    written out with their Java semantics: `split(" ")`, `replace("cc", "c")` for a
    doubled character, `charAt(0)`-style failures, and `Integer.parseInt`. */
module JavaText {
  import opened Wrappers

  /** The runtime exceptions the plugin's code can raise. */
  datatype JavaException =
    | NumberFormatException
    | ArrayIndexOutOfBoundsException
    | StringIndexOutOfBoundsException

  // ---------------------------------------------------------------------------
  // String.split(" ")
  // ---------------------------------------------------------------------------

  /** The pieces of `s` between single spaces, before Java drops trailing empty
      strings: one more piece than there are spaces. */
  function RawSplit(s: string): (r: seq<string>)
    ensures |r| >= 1
    ensures forall i :: 0 <= i < |r| ==> ' ' !in r[i]
    decreases |s|
  {
    if |s| == 0 then [""]
    else
      var rest := RawSplit(s[1..]);
      if s[0] == ' ' then [""] + rest
      else [[s[0]] + rest[0]] + rest[1..]
  }

  /** The longest prefix of `r` that does not end in an empty string. */
  function DropTrailingEmpty(r: seq<string>): (d: seq<string>)
    ensures d <= r
    ensures |d| > 0 ==> d[|d| - 1] != ""
    ensures forall i :: |d| <= i < |r| ==> r[i] == ""
  {
    if |r| == 0 then []
    else if r[|r| - 1] == "" then DropTrailingEmpty(r[..|r| - 1])
    else r
  }

  /** Java's `s.split(" ")` (limit 0): a string without a space is returned as the
      only element (even when it is empty); otherwise the pieces between spaces
      with trailing empty pieces removed, which leaves nothing at all for a string
      made only of spaces. */
  function Split(s: string): (r: seq<string>)
    ensures forall i :: 0 <= i < |r| ==> ' ' !in r[i]
    ensures ' ' !in s ==> r == [s]
    ensures ' ' in s ==> r <= RawSplit(s)
    ensures ' ' in s && |r| > 0 ==> r[|r| - 1] != ""
    ensures ' ' in s ==> forall i :: |r| <= i < |RawSplit(s)| ==> RawSplit(s)[i] == ""
  {
    if ' ' !in s then [s] else DropTrailingEmpty(RawSplit(s))
  }

  /** Splitting a space-free word followed by a space peels that word off first. */
  lemma {:induction false} RawSplitWord(w: string, rest: string)
    requires ' ' !in w
    ensures RawSplit(w + " " + rest) == [w] + RawSplit(rest)
    decreases |w|
  {
    if |w| == 0 {
      assert w + " " + rest == [' '] + rest;
      assert (w + " " + rest)[1..] == rest;
    } else {
      assert (w + " " + rest)[1..] == w[1..] + " " + rest;
      RawSplitWord(w[1..], rest);
      assert [w[0]] + w[1..] == w;
    }
  }

  /** A string of spaces splits into empty pieces only. */
  lemma {:induction false} RawSplitAllSpaces(s: string)
    requires forall i :: 0 <= i < |s| ==> s[i] == ' '
    ensures forall k :: 0 <= k < |RawSplit(s)| ==> RawSplit(s)[k] == ""
    decreases |s|
  {
    if |s| > 0 {
      RawSplitAllSpaces(s[1..]);
    }
  }

  /** A character other than a space lands in a nonempty piece. */
  lemma {:induction false} RawSplitNonEmptyPiece(s: string, i: int)
    requires 0 <= i < |s| && s[i] != ' '
    ensures exists k :: 0 <= k < |RawSplit(s)| && RawSplit(s)[k] != ""
    decreases |s|
  {
    var r := RawSplit(s);
    if i == 0 {
      assert r[0] == [s[0]] + RawSplit(s[1..])[0];
    } else {
      RawSplitNonEmptyPiece(s[1..], i - 1);
      var rest := RawSplit(s[1..]);
      var k :| 0 <= k < |rest| && rest[k] != "";
      if s[0] == ' ' {
        assert r[k + 1] == rest[k];
      } else if k == 0 {
        assert r[0] == [s[0]] + rest[0];
      } else {
        assert r[k] == rest[k];
      }
    }
  }

  /** A space-free string is a single piece. */
  lemma {:induction false} RawSplitNoSpace(w: string)
    requires ' ' !in w
    ensures RawSplit(w) == [w]
    decreases |w|
  {
    if |w| > 0 {
      RawSplitNoSpace(w[1..]);
      assert [w[0]] + w[1..] == w;
    }
  }

  /** The first token of `split(" ")` is the text before the first space, as long
      as that text is not empty. */
  lemma SplitFirstWord(w: string, rest: string)
    requires w != "" && ' ' !in w
    ensures |Split(w + " " + rest)| >= 1 && Split(w + " " + rest)[0] == w
    ensures Split(w) == [w]
  {
    var s := w + " " + rest;
    assert s[|w|] == ' ';
    RawSplitWord(w, rest);
    var r := RawSplit(s);
    assert r[0] == w;
    var d := DropTrailingEmpty(r);
    assert |d| >= 1;
    assert d[0] == r[0];
  }

  // ---------------------------------------------------------------------------
  // String.replace("cc", "c")
  // ---------------------------------------------------------------------------

  /** Java's `s.replace(cc, c)` where `cc` is the character `c` twice: the string is
      scanned left to right and each non-overlapping occurrence of `cc` becomes `c`. */
  function Collapse(s: string, c: char): (r: string)
    ensures |r| <= |s|
    decreases |s|
  {
    if |s| >= 2 && s[0] == c && s[1] == c then [c] + Collapse(s[2..], c)
    else if |s| == 0 then ""
    else [s[0]] + Collapse(s[1..], c)
  }

  /** The escaping that `Collapse` undoes: every `c` written twice. */
  function Double(s: string, c: char): (r: string)
    ensures |r| >= |s|
  {
    if |s| == 0 then ""
    else if s[0] == c then [c, c] + Double(s[1..], c)
    else [s[0]] + Double(s[1..], c)
  }

  /** `replace(cc, c)` recovers a string whose every `c` was doubled. */
  lemma {:induction false} CollapseDouble(s: string, c: char)
    ensures Collapse(Double(s, c), c) == s
  {
    if |s| > 0 {
      CollapseDouble(s[1..], c);
      var d := Double(s, c);
      if s[0] == c {
        assert d[2..] == Double(s[1..], c);
      } else {
        assert d[1..] == Double(s[1..], c);
      }
      assert [s[0]] + s[1..] == s;
    }
  }

  /** A string with no two adjacent `c`s is left alone by `replace(cc, c)`. */
  lemma {:induction false} CollapseNoPair(s: string, c: char)
    ensures (forall i :: 0 <= i < |s| - 1 ==> !(s[i] == c && s[i + 1] == c)) ==> Collapse(s, c) == s
    decreases |s|
  {
    if |s| > 0 && forall i :: 0 <= i < |s| - 1 ==> !(s[i] == c && s[i + 1] == c) {
      CollapseNoPair(s[1..], c);
      assert [s[0]] + s[1..] == s;
    }
  }

  // ---------------------------------------------------------------------------
  // Integer.parseInt
  // ---------------------------------------------------------------------------

  const MinInt: int := -0x8000_0000
  const MaxInt: int := 0x7FFF_FFFF

  predicate IsDigit(c: char) { '0' <= c <= '9' }

  predicate AllDigits(s: string) { forall i :: 0 <= i < |s| ==> IsDigit(s[i]) }

  /** The value of a string of decimal digits, most significant first. */
  function DigitsValue(s: string): (v: nat)
    requires AllDigits(s)
    ensures |s| == 0 ==> v == 0
  {
    if |s| == 0 then 0
    else DigitsValue(s[..|s| - 1]) * 10 + (s[|s| - 1] as int - '0' as int)
  }

  /** `Integer.parseInt(s)`: an optional `+` or `-` followed by at least one ASCII
      digit, with a value that fits in 32 bits; anything else is a
      NumberFormatException, here `None`. */
  function ParseInt(s: string): (r: Option<int>)
    ensures r.Some? ==> MinInt <= r.value <= MaxInt
    ensures r.Some? ==> |s| >= 1 && (IsDigit(s[0]) || s[0] == '-' || s[0] == '+')
    ensures r.Some? ==> AllDigits(s[1..])
    ensures r.Some? && (s[0] == '-' || s[0] == '+') ==> |s| >= 2
  {
    if |s| == 0 then None
    else
      var signed := s[0] == '-' || s[0] == '+';
      var digits := if signed then s[1..] else s;
      if |digits| == 0 || !AllDigits(digits) then None
      else
        var v: int := if s[0] == '-' then 0 - DigitsValue(digits) as int else DigitsValue(digits);
        if MinInt <= v <= MaxInt then Some(v) else None
  }

}
