/** The alias tables: one table per namespace, keyed by alias, holding the
    command text. A namespace is a player's name, or the global table name for a
    sender that is not a player. The SQL statements of the plugin are abstracted
    to lookups and updates of this map. */
module AliasStore {
  import opened Wrappers

  const GlobalTableName: string := "GLOBAL_COMMAND_ALIAS_TABLE"

  /** namespace -> (alias -> command) */
  type Tables = map<string, map<string, string>>

  /** Who issued an administrative command. */
  datatype Sender = Player(name: string) | NonPlayer

  /** The table a sender's aliases live in. */
  function NamespaceOf(sender: Sender): (ns: string)
    ensures sender.Player? ==> ns == sender.name
    ensures sender.NonPlayer? ==> ns == GlobalTableName
  {
    match sender
    case Player(name) => name
    case NonPlayer => GlobalTableName
  }

  /** The command stored for (ns, alias), if the table exists and holds the alias. */
  function Lookup(t: Tables, ns: string, alias: string): (r: Option<string>)
    ensures r.Some? <==> ns in t && alias in t[ns]
    ensures r.Some? ==> r.value == t[ns][alias]
  {
    if ns in t && alias in t[ns] then Some(t[ns][alias]) else None
  }

  /** createPlayerTableIfNeeded: CREATE TABLE IF NOT EXISTS. */
  function EnsureTable(t: Tables, ns: string): (r: Tables)
    ensures r.Keys == t.Keys + {ns}
    ensures forall n :: n in t ==> r[n] == t[n]
    ensures ns !in t ==> r[ns] == map[]
  {
    if ns in t then t else t[ns := map[]]
  }

  /** Ensuring a table twice has the effect of ensuring it once. */
  lemma EnsureTableIdempotent(t: Tables, ns: string)
    ensures EnsureTable(EnsureTable(t, ns), ns) == EnsureTable(t, ns)
  {
  }

  /** Ensuring a table never adds, changes or removes an entry. */
  lemma EnsureTableKeepsEntries(t: Tables, ns: string)
    ensures forall n, a :: Lookup(EnsureTable(t, ns), n, a) == Lookup(t, n, a)
  {
  }

  /** What an administrative command tells its sender. */
  datatype Reply =
    | Silent                      // success: nothing is sent
    | AlreadySet(command: string) // "That alias is already set to:" and the stored command
    | NotSet                      // "That alias isn't set to anything."
    | CreateError                 // "Error creating a new alias."
    | DeleteError                 // "Error deleting an alias."

  /** The new tables, the method's boolean result and the reply. */
  datatype StoreStep = StoreStep(tables: Tables, ok: bool, reply: Reply)

  /** aliasCommand, over the abstract tables: ensure the namespace, refuse and
      report the stored command when the alias is present, otherwise insert it.
      `executed` is the boolean the database driver's execute() returns for the
      INSERT, which the method passes on as its own result. */
  function AliasStep(t: Tables, ns: string, alias: string, cmd: string, executed: bool): (r: StoreStep)
    ensures r.tables.Keys == t.Keys + {ns}
    ensures Lookup(t, ns, alias).Some? ==> r == StoreStep(t, false, AlreadySet(Lookup(t, ns, alias).value))
    ensures Lookup(t, ns, alias).None? ==>
      Lookup(r.tables, ns, alias) == Some(cmd) && r.ok == executed &&
      r.reply == (if executed then Silent else CreateError)
    ensures forall n, a :: n != ns || a != alias ==> Lookup(r.tables, n, a) == Lookup(t, n, a)
  {
    var t1 := EnsureTable(t, ns);
    if alias in t1[ns] then StoreStep(t1, false, AlreadySet(t1[ns][alias]))
    else StoreStep(t1[ns := t1[ns][alias := cmd]], executed, if executed then Silent else CreateError)
  }

  /** unaliasCommand, over the abstract tables: ensure the namespace, refuse when
      the alias is absent, otherwise delete it. `executed` is the driver's result
      for the DELETE. */
  function UnaliasStep(t: Tables, ns: string, alias: string, executed: bool): (r: StoreStep)
    ensures r.tables.Keys == t.Keys + {ns}
    ensures Lookup(t, ns, alias).None? ==> r == StoreStep(EnsureTable(t, ns), false, NotSet)
    ensures Lookup(t, ns, alias).Some? ==>
      Lookup(r.tables, ns, alias) == None && r.ok == executed &&
      r.reply == (if executed then Silent else DeleteError)
    ensures forall n, a :: n != ns || a != alias ==> Lookup(r.tables, n, a) == Lookup(t, n, a)
  {
    var t1 := EnsureTable(t, ns);
    if alias in t1[ns] then StoreStep(t1[ns := t1[ns] - {alias}], executed, if executed then Silent else DeleteError)
    else StoreStep(t1, false, NotSet)
  }

  /** Defining an alias that is already there changes nothing and reports the
      command stored under it, whatever command was asked for. */
  lemma DefineTwiceKeepsFirst(t: Tables, sender: Sender, alias: string, first: string, second: string, e1: bool, e2: bool)
    ensures var ns := NamespaceOf(sender);
      var s1 := AliasStep(t, ns, alias, first, e1);
      var s2 := AliasStep(s1.tables, ns, alias, second, e2);
      Lookup(t, ns, alias).None? ==>
        s2 == StoreStep(s1.tables, false, AlreadySet(first)) && Lookup(s2.tables, ns, alias) == Some(first)
  {
  }

  /** Removing a defined alias restores every entry the store had before the
      definition (only the namespace's table may have been created on the way). */
  lemma DefineThenRemove(t: Tables, ns: string, alias: string, cmd: string, e1: bool, e2: bool)
    requires Lookup(t, ns, alias).None?
    ensures var s := UnaliasStep(AliasStep(t, ns, alias, cmd, e1).tables, ns, alias, e2);
      s.tables == EnsureTable(t, ns) && s.ok == e2
  {
    var t1 := EnsureTable(t, ns);
    var t2 := AliasStep(t, ns, alias, cmd, e1).tables;
    assert t2[ns] - {alias} == t1[ns];
  }

}
