# CustomCommands alias logic in Dafny

A model of the alias logic of the CustomCommands server plugin, with proofs about it.
Players and the server console define short aliases for longer commands. The plugin keeps
one alias table per player and one global table, named `GLOBAL_COMMAND_ALIAS_TABLE`, for
senders that are not players. It is meant to rewrite a typed command line when the line's
first word is a stored alias; as written it never does (see "The code as written").

The model has one module per part of the code:

- `JavaText` (`java_text.dfy`): the Java library behaviour the code depends on.
  `String.split(" ")`, including the dropping of trailing empty strings and the result for
  a line of only spaces. `String.replace("{{", "{")` and `replace("}}", "}")`, which scan
  left to right without overlap. `Integer.parseInt`.
- `Utility` (`utility.dfy`): `Utility.Join` as a loop method, proved against a
  recursive reference join. It also holds the lemmas showing that join and `split(" ")`
  invert each other.
- `AliasStore` (`alias_store.dfy`): the SQL tables, abstracted as a map from namespace to
  a map from alias to command. Also table creation and the check-then-insert and
  check-then-delete steps of `aliasCommand` and `unaliasCommand`.
- `CommandParser` (`command_parser.dfy`): the two anchored patterns of `onCommand`.
  Define is `/?alias "(.*)" as "(.*)"` and remove is `/?alias "(.*)"`. Both are written
  as string predicates: an optional slash, fixed text, greedy groups, and `.` excluding
  line terminators.
- `Resolver` (`resolver.dfy`): the two event handlers as functions. This covers
  tokenizing, the alias key, the order in which tables are looked up, the placeholder
  step and unescaping.
- `Plugin` (`plugin.dfy`): the class `CustomCommands`. It holds the tables in a field,
  and its methods update them as the Java methods do. Each method is proved against the
  functions above.

## The code as written

The code and its evident intent differ in two places. The model follows the code.

- **Placeholders.** The intent is that an alias's `{N}` placeholders become the typed
  tokens before the command is run. Lines 283, 301 and 347 call
  `replaceAll(..., tokens[Integer.parseInt("$1")])`, and Java evaluates that argument
  first. `parseInt("$1")` always throws NumberFormatException. So every alias hit ends in
  the handler's catch block: the sender is told, nothing is dispatched and the event is
  not cancelled. `Resolver.SubstituteAsWritten` models this step. `Resolver.Finish` is
  written for either result of the step. If the step yields a command, it is unescaped,
  dispatched and the event is cancelled. If it throws, the exception is reported. The
  cancellation properties are therefore proved as "cancelled if and only if there is a
  hit and the step yields a command". `Resolver.HitsAreReportedAsWritten` shows that, as
  written, nothing is ever cancelled.
- **The `unalias` command.** It is registered (line 91), but the line it builds starts
  with `unalias `, which neither pattern accepts. Removing an alias is only reachable as
  `alias "<name>"` (`Plugin.UnaliasLabelIsInert`).

Nothing in the plugin decides whether an insert or delete succeeded. The result of the
JDBC driver's `execute()` is passed to the methods as the boolean parameter `executed`.
Each method returns that value and picks its error reply from it.

## Model

| member | source | states |
|---|---|---|
| `Utility.Join` | src/PenguinT/Utility.java:5-15 | For at least one token, the loop's result is tokens[0] + infix + ... + infix + tokens[n-1] (the reference join), with a null infix appending nothing. |
| `Utility.EachThenInfixThenLast` | src/PenguinT/Utility.java:7-13 | What the loop builds (each token but the last, each followed by the infix), plus the last token, is the reference join. |
| `Utility.JoinedSnoc` | src/PenguinT/Utility.java:8-13 | One more token adds exactly the infix and that token at the end, with no trailing infix. |
| `Utility.JoinedSingle` | src/PenguinT/Utility.java:8-13 | A one-element array is returned unchanged. |
| `Utility.JoinedNullInfix` | src/PenguinT/Utility.java:11 | With a null infix the result is the plain concatenation of the tokens. |
| `Utility.JoinedLength` | src/PenguinT/Utility.java:7-13 | The result's length is the sum of the token lengths plus (n-1) times the infix length. |
| `Utility.JoinedEnds` | src/PenguinT/Utility.java:8-13 | tokens[0] is a prefix of the result and tokens[n-1] is a suffix. |
| `Utility.JoinedRawSplit` | src/main/java/PenguinT/CustomCommands.java:264 | Joining the space-separated pieces of any string with " " gives the string back. |
| `Utility.RawSplitJoined` | src/main/java/PenguinT/CustomCommands.java:264 | Splitting the join of space-free tokens gives back the tokens. |
| `Utility.SplitJoined` | src/main/java/PenguinT/CustomCommands.java:239 | Java's split(" ") inverts Join(args, " ") when no argument holds a space and the last one is not empty. |
| `Utility.JoinedSplit` | src/main/java/PenguinT/CustomCommands.java:239 | Join(split(" "), " ") gives back any line that is not empty and does not end in a space. |
| `JavaText.RawSplit` | src/main/java/PenguinT/CustomCommands.java:264 | There is at least one piece, and no piece holds a space. |
| `JavaText.Split` | src/main/java/PenguinT/CustomCommands.java:264 | No token holds a space. A string without a space comes back as its only element. Otherwise the result is a prefix of the raw pieces that does not end in an empty piece, and every dropped piece is empty. |
| `JavaText.SplitFirstWord` | src/main/java/PenguinT/CustomCommands.java:264 | The first token of split(" ") is the text before the first space, when that text is not empty. |
| `JavaText.Collapse` | src/main/java/PenguinT/CustomCommands.java:284-285 | replace("cc", "c") never lengthens the string. |
| `JavaText.CollapseDouble` | src/main/java/PenguinT/CustomCommands.java:284-285 | replace("cc", "c") recovers any string whose every c was doubled. |
| `JavaText.CollapseNoPair` | src/main/java/PenguinT/CustomCommands.java:284-285 | A string with no two adjacent copies of c is unchanged by replace("cc", "c"). |
| `JavaText.ParseInt` | src/main/java/PenguinT/CustomCommands.java:283 | Integer.parseInt succeeds only on an optional sign followed by digits, with a value that fits in 32 bits. |
| `AliasStore.EnsureTable` | src/main/java/PenguinT/CustomCommands.java:110-114 | The namespace exists afterwards, every existing table is unchanged, and a new table is empty. |
| `AliasStore.EnsureTableIdempotent` | src/main/java/PenguinT/CustomCommands.java:110-114 | Ensuring a table twice has the same effect as once. |
| `AliasStore.EnsureTableKeepsEntries` | src/main/java/PenguinT/CustomCommands.java:110-114 | Ensuring a table changes no (namespace, alias) lookup. |
| `AliasStore.AliasStep` | src/main/java/PenguinT/CustomCommands.java:154-179 | A present alias leaves the store unchanged, returns false and reports the stored command. Otherwise lookup(ns, alias) = cmd and the result is the driver's boolean. Exactly the namespace's table may be added. Every other (namespace, alias) pair is unchanged. |
| `AliasStore.UnaliasStep` | src/main/java/PenguinT/CustomCommands.java:196-222 | An absent alias returns false and reports "not set", and only the namespace may be created. A present alias is deleted and the result is the driver's boolean. Exactly the namespace's table may be added. Every other pair is unchanged. |
| `AliasStore.DefineTwiceKeepsFirst` | src/main/java/PenguinT/CustomCommands.java:164-170 | A second define of the same alias fails, reports the first command, and the first command stays stored. |
| `AliasStore.DefineThenRemove` | src/main/java/PenguinT/CustomCommands.java:172-208 | Defining an absent alias and then removing it restores the store, except that the namespace may now exist. |
| `CommandParser.LastSeparatorBelow` | src/main/java/PenguinT/CustomCommands.java:36 | Finds the last `" as "` below a position, which is where greedy group 1 ends, or reports that there is none. |
| `CommandParser.MatchDefine` | src/main/java/PenguinT/CustomCommands.java:36 | A match recombines as group 1 + `" as "` + group 2 into the remove pattern's group, and `"` + group 2 holds no `" as "` (group 1 is greedy). A line that matches remove but not define has no `" as "` in its group. |
| `CommandParser.Parse` | src/main/java/PenguinT/CustomCommands.java:243-256 | It is a define exactly when the define pattern matches (define is tried first), and then it carries that pattern's two groups. A remove carries the remove pattern's group. It is non-administrative exactly when the remove pattern fails. |
| `CommandParser.MatchRemoveComplete` | src/main/java/PenguinT/CustomCommands.java:37 | `/?alias "a"` matches with group a, for any a without line terminators. |
| `CommandParser.MatchRemove` | src/main/java/PenguinT/CustomCommands.java:37 | Every match of the remove pattern is the optional slash, `alias "`, the group and the closing quote, and the group has no line terminator. |
| `CommandParser.MatchDefineComplete` | src/main/java/PenguinT/CustomCommands.java:36 | `/?alias "a" as "c"` matches with groups (a, c) when neither a nor c holds a line terminator and `"c` holds no `" as "`. |
| `CommandParser.MatchDefineSound` | src/main/java/PenguinT/CustomCommands.java:36 | Every match of the define pattern is such a line, and group 1 ran to the last separator. |
| `CommandParser.DefineLineAlsoRemoveLine` | src/main/java/PenguinT/CustomCommands.java:243-254 | Every define line also matches the remove pattern. Parse still yields the define, because define is tried first. |
| `CommandParser.ParseRemoveLine` | src/main/java/PenguinT/CustomCommands.java:243-254 | For an a without line terminators, `/?alias "a"` parses as a removal of a if and only if a holds no `" as "`. |
| `CommandParser.ParseDefineLine` | src/main/java/PenguinT/CustomCommands.java:243-247 | `/?alias "a" as "c"` parses as a definition of (a, c) when neither a nor c holds a line terminator and `"c` holds no `" as "`. |
| `CommandParser.ParseDefineExample` | src/main/java/PenguinT/CustomCommands.java:243-247 | `alias "gn" as "gamemode creative"` defines (gn, gamemode creative). |
| `CommandParser.ParseRemoveExample` | src/main/java/PenguinT/CustomCommands.java:250-253 | `alias "gn"` removes gn. |
| `CommandParser.ParseRejectExamples` | src/main/java/PenguinT/CustomCommands.java:256 | `aliasx "gn"` and `unalias "gn"` are not administrative. |
| `CommandParser.ParseGreedyExample` | src/main/java/PenguinT/CustomCommands.java:36 | Group 1 is greedy: `alias "a" as "b" as "c"` defines (`a" as "b`, c). |
| `Resolver.Tokenize` | src/main/java/PenguinT/CustomCommands.java:264-270 | On success the tokens are split(" "), except that the first token loses its leading `/` when it has one. Tokenizing fails exactly when split(" ") is empty or its first token is empty. |
| `Resolver.AliasKeyOfLine` | src/main/java/PenguinT/CustomCommands.java:264-270 | The alias key is the first word with at most one leading `/` removed. |
| `Resolver.TokenizeFailures` | src/main/java/PenguinT/CustomCommands.java:264-265 | Tokenizing fails exactly for the empty line and the lines that start with a space. It fails at tokens[0] exactly for a nonempty line of spaces, and at charAt(0) for all the others. |
| `Resolver.SubstituteAsWritten` | src/main/java/PenguinT/CustomCommands.java:283 | The placeholder step always throws NumberFormatException, because parseInt("$1") is evaluated first. |
| `Resolver.UnescapeEscape` | src/main/java/PenguinT/CustomCommands.java:284-285 | Applying `{{`→`{` and then `}}`→`}` undoes the doubling of every brace. |
| `Resolver.UnescapeExamples` | src/main/java/PenguinT/CustomCommands.java:284-285 | `{{0}}` becomes `{0}`, and `{{{` becomes `{{` (a left-to-right scan). |
| `Resolver.Unescape` | src/main/java/PenguinT/CustomCommands.java:284-285 | Unescaping never lengthens the command, and it leaves a command with no doubled brace unchanged. |
| `Resolver.Finish` | src/main/java/PenguinT/CustomCommands.java:282-289 | After a hit: a command from the placeholder step is unescaped and dispatched, and the event cancelled. A failure of the step is reported with its exception, and the event is not cancelled. |
| `Resolver.FirstHit` | src/main/java/PenguinT/CustomCommands.java:276-297 | A hit names a consulted namespace that holds the key, and no namespace before it in the order holds the key. A miss means that none of them holds it. |
| `Resolver.PlayerLookupOrder` | src/main/java/PenguinT/CustomCommands.java:274-311 | A player's line resolves as a search of the player's table first and then the global table. |
| `Resolver.ServerLookupOrder` | src/main/java/PenguinT/CustomCommands.java:336-357 | A server line resolves as a search of the global table only. |
| `Resolver.PlayerOwnAliasWins` | src/main/java/PenguinT/CustomCommands.java:274-290 | A hit in the player's table uses that template. The global table is neither created nor consulted, so replacing it changes nothing. |
| `Resolver.PlayerFallsBackToGlobal` | src/main/java/PenguinT/CustomCommands.java:292-311 | After a miss in the player's table, both tables exist and the global template decides. If both miss, the event is passed through uncancelled. |
| `Resolver.ServerReadsOnlyGlobal` | src/main/java/PenguinT/CustomCommands.java:338-343 | The server handler's outcome depends only on the global table. |
| `Resolver.ServerCancelsIffHit` | src/main/java/PenguinT/CustomCommands.java:343-357 | The server cancels if and only if the key is in the global table and the placeholder step yields a command. |
| `Resolver.HandlersKeepEntries` | src/main/java/PenguinT/CustomCommands.java:274-338 | Neither handler adds, changes or removes an alias. |
| `Resolver.HitsAreReportedAsWritten` | src/main/java/PenguinT/CustomCommands.java:283-320 | As written no event is ever cancelled, and every hit is reported as a NumberFormatException. |
| `Resolver.DefinedAliasIsFound` | src/main/java/PenguinT/CustomCommands.java:172-290 | After a player defines a non-empty alias without a space, `/alias ...` from that player finds the player's own command. |
| `Resolver.SpacedAliasNeverKey` | src/main/java/PenguinT/CustomCommands.java:264-270 | An alias holding a space, which the define pattern accepts, is never the key of a tokenized line, so such an alias is never found. |
| `Resolver.PlayerHandled` | src/main/java/PenguinT/CustomCommands.java:259-321 | The handler throws exactly when the line cannot be tokenized, and then the tables are unchanged. Otherwise the player's table exists afterwards and at most the global table is added. Every existing table is unchanged. |
| `Resolver.ServerHandled` | src/main/java/PenguinT/CustomCommands.java:323-367 | The handler throws exactly when the line cannot be tokenized, and then the tables are unchanged. Otherwise exactly the global table is added if missing. Every existing table is unchanged. |
| `Plugin.NotAdminChangesNothing` | src/main/java/PenguinT/CustomCommands.java:256 | A line that matches neither pattern returns false and leaves the store unchanged. |
| `Plugin.UnaliasLabelIsInert` | src/main/java/PenguinT/CustomCommands.java:91-256 | The `unalias` label never matches, so it returns false and changes nothing. |
| `Plugin.DefineEndToEnd` | src/main/java/PenguinT/CustomCommands.java:239-247 | Typing `alias "a" as "c"` runs aliasCommand on exactly (a, c) in the sender's namespace, when neither a nor c holds a line terminator and `"c` holds no `" as "`. |
| `Plugin.RemoveEndToEnd` | src/main/java/PenguinT/CustomCommands.java:239-253 | Typing `alias "a"` runs unaliasCommand on exactly a in the sender's namespace, when a holds no line terminator and no `" as "`. |
| `Plugin.CommandHandled` | src/main/java/PenguinT/CustomCommands.java:236-257 | It throws exactly when there are no arguments, and then nothing changes. A true result sends no reply. At most the sender's table is added, and no lookup outside the sender's namespace changes. |
| `Plugin.CustomCommands.CreatePlayerTableIfNeeded` | src/main/java/PenguinT/CustomCommands.java:110-114 | The new tables are the old tables with the namespace ensured. |
| `Plugin.CustomCommands.AliasCommand` | src/main/java/PenguinT/CustomCommands.java:152-192 | The new tables, the result and the reply are exactly those of AliasStep on the sender's namespace. |
| `Plugin.CustomCommands.UnaliasCommand` | src/main/java/PenguinT/CustomCommands.java:194-234 | The new tables, the result and the reply are exactly those of UnaliasStep on the sender's namespace. |
| `Plugin.CustomCommands.OnCommand` | src/main/java/PenguinT/CustomCommands.java:236-257 | The new tables, the result and the reply are those of parsing label + " " + Join(args, " ") and dispatching it. No arguments throws. |
| `Plugin.CustomCommands.OnPlayerCommandPreprocessEvent` | src/main/java/PenguinT/CustomCommands.java:259-321 | The new tables and the outcome are those of the player resolution, computed with the in-place slash strip on the token array. |
| `Plugin.CustomCommands.OnServerCommandEvent` | src/main/java/PenguinT/CustomCommands.java:323-367 | The new tables and the outcome are those of the global-only resolution. |

## Left out

- `onEnable` and `onDisable`, and the creation of the data folder and database file: host lifecycle and the filesystem.
- `openConnection` and `closeConnection`, with their `synchronized` double-checked locking and JDBC driver loading: concurrency and foreign I/O.
- The SQL text. This includes the unquoted interpolation of names and aliases and the injection hazard it opens. It also includes the `SQLException` paths it causes (lines 181-189, 224-231, 313-320, 359-366). The abstract tables never fail.
- The result of JDBC `execute()` for INSERT and DELETE (lines 173 and 209): it is an opaque boolean parameter. No property says that an insert reports success.
- `sendMessage`, logging, `performCommand` and `dispatchCommand`: host calls. Only the outcome is recorded: a dispatched command with the event cancelled, a reported exception, or a pass-through. Replies are recorded as which message would be sent.
- The regular-expression semantics of `replaceAll` with `[^{]*\{(\d+)\}[^}]*`: as written its argument throws before it runs, so it is never reached.
- Resolver.SubstituteAsWritten: models only the failing evaluation of `tokens[Integer.parseInt("$1")]`, not `{N}` substitution, which the code never performs.
- JavaText.ParseInt: does not accept the non-ASCII Unicode digits that `Character.digit` admits. This is irrelevant to `"$1"`.
- Utility.Join: its tokens are never null. Java would append the text `null` for a null element.
- How the host splits a typed command into label and arguments: `args` is taken as given. The end-to-end lemmas DefineEndToEnd and RemoveEndToEnd assume the host splits on single spaces.
- The in-place update of `tokens[0]` is kept on an array inside the handler methods. The event object is not modelled as an object: its cancelled flag is `Resolver.Cancelled(outcome)`.
- Full Java regular-expression semantics: the two patterns are written as the string predicates they amount to.
