/** The plugin object: the alias tables it keeps behind its database connection,
    the administrative command executor (onCommand with aliasCommand and
    unaliasCommand) and the two event handlers. */
module Plugin {
  import opened Wrappers
  import opened JavaText
  import opened Utility
  import opened AliasStore
  import opened CommandParser
  import opened Resolver

  /** How onCommand ends: with a boolean result, or with an exception it does not catch. */
  datatype CommandResult = Returned(value: bool) | Threw(exception: JavaException)

  datatype CommandEffect = CommandEffect(tables: Tables, result: CommandResult, reply: Reply)

  /** onCommand: rebuild the line from the label and the arguments, then define or
      remove according to the first pattern that matches. Joining no arguments
      faults inside Utility.Join. */
  function CommandHandled(t: Tables, sender: Sender, commandLabel: string, args: seq<string>, executed: bool): (r: CommandEffect)
    ensures |args| == 0 <==> r.result.Threw?
    ensures r.result.Threw? ==> r == CommandEffect(t, Threw(ArrayIndexOutOfBoundsException), Silent)
    ensures r.result == Returned(true) ==> r.reply == Silent
    ensures forall n, a :: n != NamespaceOf(sender) ==> Lookup(r.tables, n, a) == Lookup(t, n, a)
    ensures t.Keys <= r.tables.Keys <= t.Keys + {NamespaceOf(sender)}
  {
    if |args| == 0 then CommandEffect(t, Threw(ArrayIndexOutOfBoundsException), Silent)
    else
      var ns := NamespaceOf(sender);
      match Parse(commandLabel + " " + Joined(args, " "))
      case Define(alias, command) =>
        var s := AliasStep(t, ns, alias, command, executed);
        CommandEffect(s.tables, Returned(s.ok), s.reply)
      case Remove(alias) =>
        var s := UnaliasStep(t, ns, alias, executed);
        CommandEffect(s.tables, Returned(s.ok), s.reply)
      case NotAdmin => CommandEffect(t, Returned(false), Silent)
  }

  /** A line that matches neither pattern returns false and changes nothing. */
  lemma NotAdminChangesNothing(t: Tables, sender: Sender, commandLabel: string, args: seq<string>, executed: bool)
    requires |args| >= 1 && Parse(commandLabel + " " + Joined(args, " ")).NotAdmin?
    ensures CommandHandled(t, sender, commandLabel, args, executed) == CommandEffect(t, Returned(false), Silent)
  {
  }

  /** Typing `alias "<alias>"`, whose words the host passes as the arguments
      after the label, runs unaliasCommand on exactly that alias, provided the
      alias holds no `" as "`. */
  lemma RemoveEndToEnd(t: Tables, sender: Sender, alias: string, executed: bool)
    requires NoLineTerminator(alias) && NoSeparator(alias)
    ensures var s := UnaliasStep(t, NamespaceOf(sender), alias, executed);
      CommandHandled(t, sender, "alias", Split("\"" + alias + "\""), executed) == CommandEffect(s.tables, Returned(s.ok), s.reply)
  {
    var text := "\"" + alias + "\"";
    JoinedSplit(text);
    assert "alias" + " " + text == OptionalSlash(false) + RemoveText(alias);
    ParseRemoveLine(false, alias);
  }

  /** The `unalias` label builds a line starting `unalias `, which neither
      pattern accepts: that command never removes anything. */
  lemma UnaliasLabelIsInert(t: Tables, sender: Sender, args: seq<string>, executed: bool)
    requires |args| >= 1
    ensures CommandHandled(t, sender, "unalias", args, executed) == CommandEffect(t, Returned(false), Silent)
  {
    var line := "unalias" + " " + Joined(args, " ");
    assert line[0] == 'u';
    assert line[..|AliasOpen|] != AliasOpen by {
      assert line[..|AliasOpen|][0] == 'u';
    }
  }

  /** Typing `alias "<alias>" as "<command>"`, whose words the host passes as the
      arguments after the label, runs aliasCommand on exactly that alias and
      command, provided the command holds no `" as "` of its own. */
  lemma DefineEndToEnd(t: Tables, sender: Sender, alias: string, command: string, executed: bool)
    requires NoLineTerminator(alias) && NoLineTerminator(command)
    requires NoSeparator("\"" + command)
    ensures var text := "\"" + alias + Separator + command + "\"";
      var s := AliasStep(t, NamespaceOf(sender), alias, command, executed);
      CommandHandled(t, sender, "alias", Split(text), executed) == CommandEffect(s.tables, Returned(s.ok), s.reply)
  {
    var text := "\"" + alias + Separator + command + "\"";
    JoinedSplit(text);
    assert "alias" + " " + text == OptionalSlash(false) + DefineText(alias, command);
    ParseDefineLine(false, alias, command);
  }

  /** The plugin's state: the alias tables of its database. */
  class CustomCommands {
    var tables: Tables

    /** A plugin whose database already holds `initial`. */
    constructor (initial: Tables)
      ensures tables == initial
    {
      tables := initial;
    }

    /** createPlayerTableIfNeeded: CREATE TABLE IF NOT EXISTS. */
    method CreatePlayerTableIfNeeded(name: string)
      modifies this
      ensures tables == EnsureTable(old(tables), name)
    {
      if name !in tables {
        tables := tables[name := map[]];
      }
    }

    /** aliasCommand: look the alias up in the sender's table, refuse if it is
        there, insert it otherwise, and pass on the driver's result. */
    method AliasCommand(sender: Sender, alias: string, cmd: string, executed: bool) returns (ok: bool, reply: Reply)
      modifies this
      ensures StoreStep(tables, ok, reply) == AliasStep(old(tables), NamespaceOf(sender), alias, cmd, executed)
    {
      var playerOrAll := NamespaceOf(sender);
      CreatePlayerTableIfNeeded(playerOrAll);
      if alias in tables[playerOrAll] {
        return false, AlreadySet(tables[playerOrAll][alias]);
      }
      tables := tables[playerOrAll := tables[playerOrAll][alias := cmd]];
      if !executed {
        return false, CreateError;
      }
      return true, Silent;
    }

    /** unaliasCommand: look the alias up in the sender's table, refuse if it is
        not there, delete it otherwise, and pass on the driver's result. */
    method UnaliasCommand(sender: Sender, alias: string, executed: bool) returns (ok: bool, reply: Reply)
      modifies this
      ensures StoreStep(tables, ok, reply) == UnaliasStep(old(tables), NamespaceOf(sender), alias, executed)
    {
      var playerOrAll := NamespaceOf(sender);
      CreatePlayerTableIfNeeded(playerOrAll);
      if alias in tables[playerOrAll] {
        tables := tables[playerOrAll := tables[playerOrAll] - {alias}];
        if !executed {
          return false, DeleteError;
        }
      } else {
        return false, NotSet;
      }
      return true, Silent;
    }

    /** onCommand. `executed` is what the driver's execute() returns for the
        INSERT or DELETE the command issues, if it issues one. */
    method OnCommand(sender: Sender, commandLabel: string, args: seq<string>, executed: bool)
      returns (result: CommandResult, reply: Reply)
      modifies this
      ensures CommandEffect(tables, result, reply) == CommandHandled(old(tables), sender, commandLabel, args, executed)
    {
      if |args| == 0 {
        return Threw(ArrayIndexOutOfBoundsException), Silent;
      }
      var joined := Join(args, Some(" "));
      var fullCmd := commandLabel + " " + joined;
      var ok: bool;
      match Parse(fullCmd)
      case Define(alias, command) =>
        ok, reply := AliasCommand(sender, alias, command, executed);
        result := Returned(ok);
      case Remove(alias) =>
        ok, reply := UnaliasCommand(sender, alias, executed);
        result := Returned(ok);
      case NotAdmin =>
        result, reply := Returned(false), Silent;
    }

    /** onPlayerCommandPreprocessEvent for a player called `name` typing `message`. */
    method OnPlayerCommandPreprocessEvent(name: string, message: string) returns (outcome: Outcome)
      modifies this
      ensures Handled(tables, outcome) == PlayerHandled(old(tables), name, message)
    {
      var pieces := Split(message);
      if |pieces| == 0 {
        return Thrown(ArrayIndexOutOfBoundsException);
      }
      var tokens := new string[|pieces|](i requires 0 <= i < |pieces| => pieces[i]);
      if |tokens[0]| == 0 {
        return Thrown(StringIndexOutOfBoundsException);
      }
      if tokens[0][0] == '/' {
        tokens[0] := tokens[0][1..];
      }
      assert tokens[..] == Tokenize(message).value;
      var alias := tokens[0];

      CreatePlayerTableIfNeeded(name);
      if alias in tables[name] {
        return Finish(SubstituteAsWritten(tables[name][alias], tokens[..]));
      }

      CreatePlayerTableIfNeeded(GlobalTableName);
      if alias in tables[GlobalTableName] {
        return Finish(SubstituteAsWritten(tables[GlobalTableName][alias], tokens[..]));
      }
      return PassThrough;
    }

    /** onServerCommandEvent for a line typed at the server console. */
    method OnServerCommandEvent(message: string) returns (outcome: Outcome)
      modifies this
      ensures Handled(tables, outcome) == ServerHandled(old(tables), message)
    {
      var pieces := Split(message);
      if |pieces| == 0 {
        return Thrown(ArrayIndexOutOfBoundsException);
      }
      var tokens := new string[|pieces|](i requires 0 <= i < |pieces| => pieces[i]);
      if |tokens[0]| == 0 {
        return Thrown(StringIndexOutOfBoundsException);
      }
      if tokens[0][0] == '/' {
        tokens[0] := tokens[0][1..];
      }
      assert tokens[..] == Tokenize(message).value;
      var alias := tokens[0];

      CreatePlayerTableIfNeeded(GlobalTableName);
      if alias in tables[GlobalTableName] {
        return Finish(SubstituteAsWritten(tables[GlobalTableName][alias], tokens[..]));
      }
      return PassThrough;
    }
  }

}
