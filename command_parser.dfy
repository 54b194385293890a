/** The administrative line parser of onCommand: the two anchored patterns
    `/?alias "(.*)" as "(.*)"` (define) and `/?alias "(.*)"` (remove), written as
    string predicates. `.` matches any character but a line terminator, and both
    groups are greedy. */
module CommandParser {
  import opened Wrappers

  /** The fixed text after the optional slash: `alias "`. */
  const AliasOpen: string := "alias \""
  /** The fixed text between the two groups of the define pattern: `" as "`. */
  const Separator: string := "\" as \""

  /** The characters Java's `.` does not match without the DOTALL flag. */
  predicate IsLineTerminator(c: char) {
    c == '\n' || c == '\r' || c == '\U{0085}' || c == '\U{2028}' || c == '\U{2029}'
  }

  predicate NoLineTerminator(s: string) {
    forall i :: 0 <= i < |s| ==> !IsLineTerminator(s[i])
  }

  lemma NoLineTerminatorConcat(x: string, y: string)
    ensures NoLineTerminator(x + y) <==> NoLineTerminator(x) && NoLineTerminator(y)
  {
    if NoLineTerminator(x + y) {
      forall i | 0 <= i < |x| ensures !IsLineTerminator(x[i]) {
        assert x[i] == (x + y)[i];
      }
      forall i | 0 <= i < |y| ensures !IsLineTerminator(y[i]) {
        assert y[i] == (x + y)[|x| + i];
      }
    }
  }

  predicate StartsWithSlash(line: string) {
    |line| > 0 && line[0] == '/'
  }

  function OptionalSlash(slash: bool): string {
    if slash then "/" else ""
  }

  /** `/?`: a leading slash is consumed when there is one (if the rest then failed,
      the alternative without the slash would have to match `a` against `/`). */
  function AfterSlash(line: string): string {
    if StartsWithSlash(line) then line[1..] else line
  }

  predicate SeparatorAt(s: string, i: int) {
    0 <= i && i + |Separator| <= |s| && s[i..i + |Separator|] == Separator
  }

  predicate NoSeparator(s: string) {
    forall i :: 0 <= i < |s| ==> !SeparatorAt(s, i)
  }

  /** The last position below `n` where the separator starts, if any. */
  function LastSeparatorBelow(s: string, n: nat): (r: Option<nat>)
    requires n <= |s|
    ensures r.Some? ==> r.value < n && SeparatorAt(s, r.value)
    ensures forall j :: (if r.Some? then r.value else -1) < j < n ==> !SeparatorAt(s, j)
    decreases n
  {
    if n == 0 then None
    else if SeparatorAt(s, n - 1) then Some(n - 1)
    else LastSeparatorBelow(s, n - 1)
  }

  /** Matcher.matches() of the define pattern, with its two groups. Group 1 is
      greedy, so it ends at the LAST `" as "` of the quoted text. */
  function MatchDefine(line: string): (r: Option<(string, string)>)
    ensures r.Some? ==> MatchRemove(line) == Some(r.value.0 + Separator + r.value.1)
    ensures r.Some? ==> NoSeparator("\"" + r.value.1)
    ensures r.None? && MatchRemove(line).Some? ==> NoSeparator(MatchRemove(line).value)
  {
    match MatchRemove(line)
    case None => None
    case Some(inner) =>
      match LastSeparatorBelow(inner, |inner|)
      case None => None
      case Some(i) =>
        SplitAtSeparator(inner, i);
        NoSeparatorAfterLast(inner, i);
        Some((inner[..i], inner[i + |Separator|..]))
  }

  /** Matcher.matches() of the remove pattern, with its group: the text between
      `alias "` and the closing quote, when the whole line is `/?alias "` + text +
      `"` with no line terminator. Every match is a remove line around its group. */
  function MatchRemove(line: string): (r: Option<string>)
    ensures r.Some? ==> NoLineTerminator(line) && NoLineTerminator(r.value)
    ensures r.Some? ==> line == OptionalSlash(StartsWithSlash(line)) + RemoveText(r.value)
  {
    var body := AfterSlash(line);
    if NoLineTerminator(line) && |body| >= |AliasOpen| + 1 &&
       body[..|AliasOpen|] == AliasOpen && body[|body| - 1] == '"'
    then
      var a := body[|AliasOpen|..|body| - 1];
      assert body == AliasOpen + a + "\"";
      RemoveLineShape(line, a);
      Some(a)
    else None
  }

  /** What onCommand makes of a line. */
  datatype Admin = Define(alias: string, command: string) | Remove(alias: string) | NotAdmin

  /** onCommand's dispatch: the define pattern is tried before the remove pattern. */
  function Parse(line: string): (r: Admin)
    ensures r.Define? <==> MatchDefine(line).Some?
    ensures r.Define? ==> MatchDefine(line) == Some((r.alias, r.command))
    ensures r.Remove? ==> MatchRemove(line) == Some(r.alias)
    ensures r.NotAdmin? <==> MatchRemove(line).None?
  {
    match MatchDefine(line)
    case Some((a, c)) => Define(a, c)
    case None =>
      match MatchRemove(line)
      case Some(a) => Remove(a)
      case None => NotAdmin
  }

  /** The text of a define command after the optional slash. */
  function DefineText(alias: string, command: string): string {
    AliasOpen + alias + Separator + command + "\""
  }

  /** The text of a remove command after the optional slash. */
  function RemoveText(alias: string): string {
    AliasOpen + alias + "\""
  }

  lemma AfterOptionalSlash(slash: bool, rest: string)
    requires |rest| > 0 && rest[0] == 'a'
    ensures AfterSlash(OptionalSlash(slash) + rest) == rest
    ensures StartsWithSlash(OptionalSlash(slash) + rest) == slash
  {
    if slash {
      assert (OptionalSlash(slash) + rest)[1..] == rest;
    }
  }

  /** A remove line is read back exactly: group 1 is everything between the
      quotes, whatever it holds, as long as it has no line terminator. */
  lemma MatchRemoveComplete(slash: bool, alias: string)
    requires NoLineTerminator(alias)
    ensures MatchRemove(OptionalSlash(slash) + RemoveText(alias)) == Some(alias)
  {
    var body := RemoveText(alias);
    AfterOptionalSlash(slash, body);
    NoLineTerminatorConcat(AliasOpen, alias);
    NoLineTerminatorConcat(AliasOpen + alias, "\"");
    NoLineTerminatorConcat(OptionalSlash(slash), body);
    assert body[..|AliasOpen|] == AliasOpen;
    assert body[|AliasOpen|..|body| - 1] == alias;
  }

  /** A line that is the optional slash, `alias "`, a group and a closing quote
      is built from those parts, and the group inherits the line's lack of line
      terminators. */
  lemma RemoveLineShape(line: string, a: string)
    requires NoLineTerminator(line)
    requires AfterSlash(line) == AliasOpen + a + "\""
    ensures NoLineTerminator(a)
    ensures line == OptionalSlash(StartsWithSlash(line)) + RemoveText(a)
  {
    var body := AfterSlash(line);
    if StartsWithSlash(line) {
      assert line == "/" + body;
    }
    NoLineTerminatorConcat(OptionalSlash(StartsWithSlash(line)), body);
    NoLineTerminatorConcat(AliasOpen, a);
    NoLineTerminatorConcat(AliasOpen + a, "\"");
  }

  /** No separator can start inside the separator itself after its first character. */
  lemma SeparatorPositions(alias: string, command: string)
    requires NoSeparator("\"" + command)
    ensures var inner := alias + Separator + command;
      SeparatorAt(inner, |alias|) && forall j :: |alias| < j ==> !SeparatorAt(inner, j)
  {
    var inner := alias + Separator + command;
    assert inner[|alias|..|alias| + |Separator|] == Separator;
    var tail := "\"" + command;
    assert inner[|alias| + 5..] == tail;
    forall j | |alias| < j
      ensures !SeparatorAt(inner, j)
    {
      if SeparatorAt(inner, j) {
        assert inner[j..j + |Separator|][0] == inner[j] == '"';
        if j >= |alias| + 5 {
          var k := j - |alias| - 5;
          assert tail[k..k + |Separator|] == inner[j..j + |Separator|];
          assert SeparatorAt(tail, k) && 0 <= k < |tail|;
        }
      }
    }
  }

  /** A define line whose command has no `" as "` (counting the quote before it)
      is read back exactly. */
  lemma MatchDefineComplete(slash: bool, alias: string, command: string)
    requires NoLineTerminator(alias) && NoLineTerminator(command)
    requires NoSeparator("\"" + command)
    ensures MatchDefine(OptionalSlash(slash) + DefineText(alias, command)) == Some((alias, command))
  {
    var inner := alias + Separator + command;
    NoLineTerminatorConcat(alias, Separator);
    NoLineTerminatorConcat(alias + Separator, command);
    assert DefineText(alias, command) == RemoveText(inner);
    MatchRemoveComplete(slash, inner);
    SeparatorPositions(alias, command);
    assert LastSeparatorBelow(inner, |inner|) == Some(|alias|);
    assert inner[..|alias|] == alias;
    assert inner[|alias| + |Separator|..] == command;
  }

  /** Every match of the define pattern is a define line whose command has no
      `" as "` after its opening quote: group 1 took the last separator. */
  lemma MatchDefineSound(line: string)
    requires MatchDefine(line).Some?
    ensures var (a, c) := MatchDefine(line).value;
      NoLineTerminator(a) && NoLineTerminator(c) && NoSeparator("\"" + c) &&
      line == OptionalSlash(StartsWithSlash(line)) + DefineText(a, c)
  {
    var (a, c) := MatchDefine(line).value;
    var inner := MatchRemove(line).value;
    assert inner == a + Separator + c;
    NoLineTerminatorConcat(a, Separator);
    NoLineTerminatorConcat(a + Separator, c);
    assert DefineText(a, c) == RemoveText(inner);
  }

  lemma SplitAtSeparator(s: string, i: int)
    requires SeparatorAt(s, i)
    ensures s == s[..i] + Separator + s[i + |Separator|..]
  {
  }

  /** What follows the last separator, quote included, holds no separator. */
  lemma NoSeparatorAfterLast(s: string, i: int)
    requires SeparatorAt(s, i)
    requires forall j :: i < j < |s| ==> !SeparatorAt(s, j)
    ensures NoSeparator("\"" + s[i + |Separator|..])
  {
    var tail := "\"" + s[i + |Separator|..];
    assert tail == s[i + 5..];
    forall k | 0 <= k < |tail|
      ensures !SeparatorAt(tail, k)
    {
      if SeparatorAt(tail, k) {
        assert s[i + 5 + k..i + 5 + k + |Separator|] == tail[k..k + |Separator|];
        assert SeparatorAt(s, i + 5 + k);
      }
    }
  }

  /** Whatever matches the define pattern also matches the remove pattern, with
      the whole quoted text as its group, so the order of the two tests matters. */
  lemma DefineLineAlsoRemoveLine(line: string)
    requires MatchDefine(line).Some?
    ensures var (a, c) := MatchDefine(line).value;
      MatchRemove(line) == Some(a + Separator + c) && Parse(line) == Define(a, c)
  {
    var inner := MatchRemove(line).value;
    var i := LastSeparatorBelow(inner, |inner|).value;
    assert inner == inner[..i] + Separator + inner[i + |Separator|..];
  }

  /** A remove line is parsed as a removal exactly when its alias has no
      `" as "`; otherwise the define pattern claims it. */
  lemma ParseRemoveLine(slash: bool, alias: string)
    requires NoLineTerminator(alias)
    ensures Parse(OptionalSlash(slash) + RemoveText(alias)) == Remove(alias) <==> NoSeparator(alias)
  {
    MatchRemoveComplete(slash, alias);
    var line := OptionalSlash(slash) + RemoveText(alias);
    assert MatchRemove(line) == Some(alias);
    if !NoSeparator(alias) {
      var k :| 0 <= k < |alias| && SeparatorAt(alias, k);
      assert LastSeparatorBelow(alias, |alias|).Some?;
    }
  }

  /** A define line is parsed as a definition when its command has no `" as "`. */
  lemma ParseDefineLine(slash: bool, alias: string, command: string)
    requires NoLineTerminator(alias) && NoLineTerminator(command)
    requires NoSeparator("\"" + command)
    ensures Parse(OptionalSlash(slash) + DefineText(alias, command)) == Define(alias, command)
  {
    MatchDefineComplete(slash, alias, command);
  }

  /** `alias "gn" as "gamemode creative"` defines gn. */
  lemma ParseDefineExample(line: string)
    requires line == "alias \"gn\" as \"gamemode creative\""
    ensures Parse(line) == Define("gn", "gamemode creative")
  {
    DefineExampleText(line);
    ParseDefineLine(false, "gn", "gamemode creative");
  }

  lemma DefineExampleText(line: string)
    requires line == "alias \"gn\" as \"gamemode creative\""
    ensures line == OptionalSlash(false) + DefineText("gn", "gamemode creative")
    ensures NoLineTerminator("gn") && NoLineTerminator("gamemode creative")
    ensures NoSeparator("\"" + "gamemode creative")
  {
    DefineExampleCommand();
  }

  lemma DefineExampleCommand()
    ensures NoSeparator("\"" + "gamemode creative")
  {
    assert "\"gamemode creative" == "\"" + "gamemode creative";
    NoSeparatorNoQuote("\"gamemode creative");
  }

  /** `alias "gn"` removes gn. */
  lemma ParseRemoveExample(line: string)
    requires line == "alias \"gn\""
    ensures Parse(line) == Remove("gn")
  {
    assert line == OptionalSlash(false) + RemoveText("gn");
    NoSeparatorNoQuote("gn");
    ParseRemoveLine(false, "gn");
  }

  /** Neither pattern matches `aliasx "gn"` or `unalias "gn"`. */
  lemma ParseRejectExamples()
    ensures Parse("aliasx \"gn\"") == NotAdmin
    ensures Parse("unalias \"gn\"") == NotAdmin
  {
    var wrongWord := "aliasx \"gn\"";
    assert wrongWord[..|AliasOpen|] != AliasOpen by { assert wrongWord[5] != AliasOpen[5]; }
    var unalias := "unalias \"gn\"";
    assert unalias[..|AliasOpen|] != AliasOpen by { assert unalias[0] != AliasOpen[0]; }
  }

  /** Group 1 is greedy: in a command that itself holds `" as "`, the alias runs
      up to the last one. */
  lemma ParseGreedyExample(line: string)
    requires line == "alias \"a\" as \"b\" as \"c\""
    ensures Parse(line) == Define("a\" as \"b", "c")
  {
    GreedyExampleText(line);
    ParseDefineLine(false, "a\" as \"b", "c");
  }

  lemma GreedyExampleText(line: string)
    requires line == "alias \"a\" as \"b\" as \"c\""
    ensures line == OptionalSlash(false) + DefineText("a\" as \"b", "c")
    ensures NoLineTerminator("a\" as \"b") && NoLineTerminator("c")
    ensures NoSeparator("\"" + "c")
  {
    assert "\"c" == "\"" + "c";
    NoSeparatorNoQuote("\"c");
  }

  /** A string with no quote after its first character holds no separator, since
      a separator ends in a quote. */
  lemma NoSeparatorNoQuote(s: string)
    requires |s| > 0 && '"' !in s[1..]
    ensures NoSeparator(s)
  {
    forall i | 0 <= i < |s|
      ensures !SeparatorAt(s, i)
    {
      if i + |Separator| <= |s| {
        assert s[i + 5] == s[1..][i + 4];
      }
    }
  }

}
