/** The two event handlers' logic: tokenizing the typed line, the alias key, the
    order in which namespaces are consulted, the placeholder step the code
    performs and the brace unescaping that follows it. */
module Resolver {
  import opened Wrappers
  import opened JavaText
  import opened AliasStore

  // ---------------------------------------------------------------------------
  // Tokens and the alias key
  // ---------------------------------------------------------------------------

  /** `split(" ")` of the typed line, then one leading `/` stripped from the first
      token in place. An empty token list faults on `tokens[0]`, and an empty first
      token faults on `charAt(0)`; both happen before the handlers' try block. */
  function Tokenize(message: string): (r: Result<seq<string>, JavaException>)
    ensures r.Success? ==> |r.value| == |Split(message)| >= 1 && r.value[1..] == Split(message)[1..]
    ensures r.Success? ==> var w := Split(message)[0];
      w != "" && r.value[0] == (if w[0] == '/' then w[1..] else w)
    ensures r.Failure? <==> Split(message) == [] || Split(message)[0] == ""
  {
    var pieces := Split(message);
    if |pieces| == 0 then Failure(ArrayIndexOutOfBoundsException)
    else if |pieces[0]| == 0 then Failure(StringIndexOutOfBoundsException)
    else if pieces[0][0] == '/' then Success(pieces[0 := pieces[0][1..]])
    else Success(pieces)
  }

  /** The alias key of a line is its first word with at most one leading `/`
      removed. */
  lemma AliasKeyOfLine(word: string, rest: string)
    requires word != "" && ' ' !in word
    ensures var key := if word[0] == '/' then word[1..] else word;
      Tokenize(word + " " + rest).Success? && Tokenize(word + " " + rest).value[0] == key &&
      Tokenize(word).Success? && Tokenize(word).value == [key]
  {
    SplitFirstWord(word, rest);
  }

  /** The lines the handlers cannot tokenize are exactly the empty line and the
      lines that start with a space; a line made only of spaces faults on
      `tokens[0]`, every other one on `charAt(0)`. */
  lemma TokenizeFailures(line: string)
    ensures Tokenize(line).Failure? <==> line == "" || line[0] == ' '
    ensures Tokenize(line) == Failure(ArrayIndexOutOfBoundsException) <==>
      line != "" && forall i :: 0 <= i < |line| ==> line[i] == ' '
    ensures Tokenize(line).Failure? ==>
      Tokenize(line).error == (if line != "" && forall i :: 0 <= i < |line| ==> line[i] == ' '
                               then ArrayIndexOutOfBoundsException
                               else StringIndexOutOfBoundsException)
  {
    if line != "" && ' ' in line {
      var r := RawSplit(line);
      if forall i :: 0 <= i < |line| ==> line[i] == ' ' {
        RawSplitAllSpaces(line);
      } else {
        var i :| 0 <= i < |line| && line[i] != ' ';
        RawSplitNonEmptyPiece(line, i);
        assert r[0] == if line[0] == ' ' then "" else [line[0]] + RawSplit(line[1..])[0];
      }
    }
  }

  // ---------------------------------------------------------------------------
  // The placeholder step and unescaping
  // ---------------------------------------------------------------------------

  /** The replacement argument the code passes for the template's placeholders:
      `tokens[Integer.parseInt("$1")]`, evaluated before `replaceAll` runs. */
  const GroupReference: string := "$1"

  /** The `replaceAll` step as written. Java evaluates its arguments first, and
      `Integer.parseInt("$1")` throws NumberFormatException, so the step never
      yields a command. */
  function SubstituteAsWritten(template: string, tokens: seq<string>): (r: Result<string, JavaException>)
    ensures r == Failure(NumberFormatException)
  {
    match ParseInt(GroupReference)
    case None => Failure(NumberFormatException)
    case Some(_) => assert false; Failure(NumberFormatException)
  }

  /** `replace("{{", "{")` and then `replace("}}", "}")`. */
  function Unescape(command: string): (r: string)
    ensures |r| <= |command|
    ensures (forall i :: 0 <= i < |command| - 1 ==>
               !(command[i] == '{' && command[i + 1] == '{') && !(command[i] == '}' && command[i + 1] == '}'))
            ==> r == command
  {
    CollapseNoPair(command, '{');
    CollapseNoPair(command, '}');
    Collapse(Collapse(command, '{'), '}')
  }

  /** Every brace written twice: what a template author writes for a literal brace. */
  function Escape(text: string): string {
    Double(Double(text, '}'), '{')
  }

  /** Unescaping undoes escaping. */
  lemma UnescapeEscape(text: string)
    ensures Unescape(Escape(text)) == text
  {
    CollapseDouble(Double(text, '}'), '{');
    CollapseDouble(text, '}');
  }

  /** `{{0}}` unescapes to `{0}`, and a run of three opening braces keeps two:
      the replacement scans left to right without overlapping. */
  lemma UnescapeExamples()
    ensures Unescape("{{0}}") == "{0}"
    ensures Unescape("{{{") == "{{"
  {
  }

  // ---------------------------------------------------------------------------
  // Outcomes
  // ---------------------------------------------------------------------------

  /** What a handler does with an event. */
  datatype Outcome =
    | PassThrough                        // no alias: the event is left alone
    | Dispatched(command: string)        // the command is performed and the event cancelled
    | Reported(exception: JavaException) // caught: the sender is told, the event is left alone
    | Thrown(exception: JavaException)   // raised before the try block and not caught

  predicate Cancelled(o: Outcome) {
    o.Dispatched?
  }

  /** After a hit: unescape and dispatch the substituted command and cancel the
      event, or report the exception that the substitution raised. */
  function Finish(step: Result<string, JavaException>): (o: Outcome)
    ensures Cancelled(o) <==> step.Success?
    ensures step.Success? ==> o == Dispatched(Unescape(step.value))
    ensures step.Failure? ==> o == Reported(step.error)
    ensures !o.PassThrough? && !o.Thrown?
  {
    match step
    case Success(command) => Dispatched(Unescape(command))
    case Failure(e) => Reported(e)
  }

  // ---------------------------------------------------------------------------
  // Lookup order
  // ---------------------------------------------------------------------------

  datatype Resolution = Hit(namespace: string, template: string) | Miss

  /** The reference meaning of "look in these namespaces in turn": the first one
      that holds the key wins. */
  function FirstHit(t: Tables, order: seq<string>, key: string): (r: Resolution)
    ensures r.Hit? ==> r.namespace in order && Lookup(t, r.namespace, key) == Some(r.template)
    ensures r.Hit? ==>
      exists i :: 0 <= i < |order| && order[i] == r.namespace &&
        (forall j :: 0 <= j < i ==> Lookup(t, order[j], key).None?)
    ensures r.Miss? <==> forall i :: 0 <= i < |order| ==> Lookup(t, order[i], key).None?
  {
    if |order| == 0 then Miss
    else
      match Lookup(t, order[0], key)
      case Some(template) => Hit(order[0], template)
      case None => FirstHit(t, order[1..], key)
  }

  /** What a resolution leads to once the line has been tokenized. */
  function Respond(hit: Resolution, tokens: seq<string>): Outcome {
    match hit
    case Miss => PassThrough
    case Hit(_, template) => Finish(SubstituteAsWritten(template, tokens))
  }

  datatype Handled = Handled(tables: Tables, outcome: Outcome)

  /** onPlayerCommandPreprocessEvent: ensure and search the player's table; on a
      miss ensure and search the global table. */
  function PlayerHandled(t: Tables, name: string, message: string): (r: Handled)
    ensures r.outcome.Thrown? <==> Tokenize(message).Failure?
    ensures r.outcome.Thrown? ==> r == Handled(t, Thrown(Tokenize(message).error))
    ensures !r.outcome.Thrown? ==> t.Keys + {name} <= r.tables.Keys <= t.Keys + {name, GlobalTableName}
    ensures forall n :: n in t ==> n in r.tables && r.tables[n] == t[n]
  {
    match Tokenize(message)
    case Failure(e) => Handled(t, Thrown(e))
    case Success(tokens) =>
      var alias := tokens[0];
      var own := EnsureTable(t, name);
      if alias in own[name] then Handled(own, Finish(SubstituteAsWritten(own[name][alias], tokens)))
      else
        var both := EnsureTable(own, GlobalTableName);
        if alias in both[GlobalTableName] then
          Handled(both, Finish(SubstituteAsWritten(both[GlobalTableName][alias], tokens)))
        else Handled(both, PassThrough)
  }

  /** onServerCommandEvent: ensure and search the global table only. */
  function ServerHandled(t: Tables, message: string): (r: Handled)
    ensures r.outcome.Thrown? <==> Tokenize(message).Failure?
    ensures r.outcome.Thrown? ==> r == Handled(t, Thrown(Tokenize(message).error))
    ensures !r.outcome.Thrown? ==> r.tables.Keys == t.Keys + {GlobalTableName}
    ensures forall n :: n in t ==> n in r.tables && r.tables[n] == t[n]
  {
    match Tokenize(message)
    case Failure(e) => Handled(t, Thrown(e))
    case Success(tokens) =>
      var alias := tokens[0];
      var global := EnsureTable(t, GlobalTableName);
      if alias in global[GlobalTableName] then
        Handled(global, Finish(SubstituteAsWritten(global[GlobalTableName][alias], tokens)))
      else Handled(global, PassThrough)
  }

  /** A player's line is resolved against the player's table first and the
      global table second. */
  lemma PlayerLookupOrder(t: Tables, name: string, message: string)
    requires Tokenize(message).Success?
    ensures var tokens := Tokenize(message).value;
      PlayerHandled(t, name, message).outcome == Respond(FirstHit(t, [name, GlobalTableName], tokens[0]), tokens)
  {
    var key := Tokenize(message).value[0];
    assert [name, GlobalTableName][1..] == [GlobalTableName];
    assert [GlobalTableName][1..] == [];
  }

  /** A server line is resolved against the global table alone. */
  lemma ServerLookupOrder(t: Tables, message: string)
    requires Tokenize(message).Success?
    ensures var tokens := Tokenize(message).value;
      ServerHandled(t, message).outcome == Respond(FirstHit(t, [GlobalTableName], tokens[0]), tokens)
  {
    assert [GlobalTableName][1..] == [];
  }

  /** A hit in the player's own table decides the outcome: the global table is
      neither created nor consulted, so replacing it changes nothing. */
  lemma PlayerOwnAliasWins(t: Tables, name: string, message: string, global: map<string, string>)
    requires Tokenize(message).Success? && name != GlobalTableName
    requires Lookup(t, name, Tokenize(message).value[0]).Some?
    ensures var tokens := Tokenize(message).value;
      PlayerHandled(t, name, message) == Handled(t, Finish(SubstituteAsWritten(t[name][tokens[0]], tokens)))
    ensures PlayerHandled(t[GlobalTableName := global], name, message).outcome == PlayerHandled(t, name, message).outcome
  {
  }

  /** A miss in the player's table consults the global table, after which both
      tables exist; when the global table misses too the event is left alone. */
  lemma PlayerFallsBackToGlobal(t: Tables, name: string, message: string)
    requires Tokenize(message).Success?
    requires Lookup(t, name, Tokenize(message).value[0]).None?
    ensures var tokens := Tokenize(message).value;
      var r := PlayerHandled(t, name, message);
      r.tables == EnsureTable(EnsureTable(t, name), GlobalTableName) &&
      name in r.tables && GlobalTableName in r.tables &&
      (Lookup(t, GlobalTableName, tokens[0]).Some? ==>
        r.outcome == Finish(SubstituteAsWritten(t[GlobalTableName][tokens[0]], tokens))) &&
      (Lookup(t, GlobalTableName, tokens[0]).None? ==> r.outcome == PassThrough && !Cancelled(r.outcome))
  {
  }

  /** The server handler depends on the global table alone. */
  lemma ServerReadsOnlyGlobal(t: Tables, u: Tables, message: string)
    requires EnsureTable(t, GlobalTableName)[GlobalTableName] == EnsureTable(u, GlobalTableName)[GlobalTableName]
    ensures ServerHandled(t, message).outcome == ServerHandled(u, message).outcome
  {
  }

  /** The server handler cancels the event exactly when the key is in the global
      table and the placeholder step yields a command. */
  lemma ServerCancelsIffHit(t: Tables, message: string)
    ensures Cancelled(ServerHandled(t, message).outcome) <==>
      Tokenize(message).Success? &&
      Lookup(t, GlobalTableName, Tokenize(message).value[0]).Some? &&
      SubstituteAsWritten(t[GlobalTableName][Tokenize(message).value[0]], Tokenize(message).value).Success?
  {
  }

  /** Neither handler ever adds, changes or removes an alias. */
  lemma HandlersKeepEntries(t: Tables, name: string, message: string)
    ensures forall n, a :: Lookup(PlayerHandled(t, name, message).tables, n, a) == Lookup(t, n, a)
    ensures forall n, a :: Lookup(ServerHandled(t, message).tables, n, a) == Lookup(t, n, a)
  {
    EnsureTableKeepsEntries(t, name);
    EnsureTableKeepsEntries(EnsureTable(t, name), GlobalTableName);
    EnsureTableKeepsEntries(t, GlobalTableName);
  }

  /** As written, every hit ends in the catch block with a NumberFormatException,
      so no alias is ever dispatched and no event is ever cancelled. */
  lemma HitsAreReportedAsWritten(t: Tables, name: string, message: string)
    ensures var o := PlayerHandled(t, name, message).outcome;
      !Cancelled(o) && (o.PassThrough? || o.Thrown? || o == Reported(NumberFormatException))
    ensures var o := ServerHandled(t, message).outcome;
      !Cancelled(o) && (o.PassThrough? || o.Thrown? || o == Reported(NumberFormatException))
  {
  }

  /** An alias holding a space can be stored, but no typed line has it as its key:
      split(" ") never yields a token with a space. */
  lemma SpacedAliasNeverKey(alias: string, message: string)
    requires ' ' in alias && Tokenize(message).Success?
    ensures Tokenize(message).value[0] != alias
  {
    var w := Split(message)[0];
    assert ' ' !in w;
    if w[0] == '/' {
      assert forall k :: 0 <= k < |w[1..]| ==> w[1..][k] == w[k + 1];
    }
  }

  /** After a player defines an alias, typing `/<alias> ...` finds that player's
      command, whatever the global table holds; the tables are not changed. */
  lemma DefinedAliasIsFound(t: Tables, name: string, alias: string, cmd: string, executed: bool, rest: string)
    requires alias != "" && ' ' !in alias
    requires Lookup(t, name, alias).None?
    ensures var after := AliasStep(t, name, alias, cmd, executed).tables;
      var message := "/" + alias + " " + rest;
      Tokenize(message).Success? && Tokenize(message).value[0] == alias &&
      PlayerHandled(after, name, message) == Handled(after, Finish(SubstituteAsWritten(cmd, Tokenize(message).value)))
  {
    AliasKeyOfLine("/" + alias, rest);
    assert ("/" + alias)[1..] == alias;
  }

}
