# Models of the repository's schema, source-scanning and key tooling

This project models the scripts that decide what the production database looks
like, what the architecture gate sees, how Fluent bundles are rewritten, how
the updater's key file is opened, how retired commands are deleted and what the
mail sink records, and proves what those scripts are relied on for.

**Schema convergence** (`Catalog`, `Migrations`, `Tracking`, `RenameReplay`,
`KindOrder`, `Reconcile`, `Convergence`, `Leftovers`, `RowFlow`, `RenameLimits`). A
database is a map from table names to columns and rows. A migration chain is a
sequence of steps, among them drops and rebuilds that omit columns; the generated
script replays only the renames of that chain, reconciles columns and creates
missing tables. A deployed database is never at a state of the chain: the script
built it, and it keeps what the chain dropped. `Tracking.Tracks` says how it relates
to the chain. `Convergence.Converges` says what the two blocks and the guarded
creates make of its tables and columns: those of the database, as the outstanding
renames move them, merged with the declared schema.

The result has exactly the declared tables and columns if and only if the
outstanding steps bring back every table and column that the database had beyond
its last release, and drop for good none that it then has
(`Leftovers.NothingLeftIff`). The registry has steps of both kinds: it drops
`loyalty_tiers.earn_multiplier` for good, and it drops the media tables and creates
them again.

**The whole script** (`Storage`, `ConstraintFlow`, `TextOrder`, `Repairs`,
`RepairFits`, `Seeds`, `Inserting`, `Emission`, `Graph`, `TableOrder`, `Ddl`, `Rendering`,
`Upgrade`, `Fresh`, `OpenShifts`, `Again`, `Settling`, `RowsKept`,
`ScriptConstraints`, `Deployment`, `History`, `Script`). A database state adds
what PostgreSQL enforces: keys, unique indexes with their predicates, and foreign
keys, all of which renames carry along. Every statement that the generator emits has
its effect on such a state or is refused by it, and a refused statement undoes the
whole script. Each statement keeps the state lawful (`Emission.ExecKeepsLawful`).

- `Deployment.UpgradeRunsIff`: the script goes through if and only if no declared
  update is refused, each missing table finds the keys that it references, no missing
  unique index meets two rows with one key, no legacy NOT NULL column refuses a seed,
  and the rows the seeds add find their parents. Of the parents' keys nothing is
  assumed: a key that an old table never had is a reason for refusal.
- `OpenShifts`: without the repair of duplicate open shifts two of them stop the
  script at the unique index; with it, they do not as soon as ids are a key and
  `id` and `opened_at` are NOT NULL, and exactly when no user has two newest open
  shifts.
- `RowsKept.ScriptLosesNothing`: no row is lost, old rows stay in front of the seeds,
  and the only cells that change are in the columns that a declared update writes;
  `Repairs.UpdateTouches` names the rows.
- `Repairs.OnlyTheLatestStays`, `EarlierIsClosed`, `SmallerIdIsClosed`: the repair
  keeps the latest open shift of a user and closes the others.
- `ConstraintFlow.ReplayMovesConstraints` and `ScriptConstraints`: every key, index
  and foreign key is there after the renames, about the same tables and columns, and
  there are no others; the whole script adds the declared ones of what was missing.
- `Settling.RunningAgainIff`: a second run changes nothing if and only if the repair
  did not overwrite the last NULL of a NOT NULL column that had to stay nullable
  (`updated_at` of a superseded shift is such a cell) and every seed row has a key.
- `Fresh.FreshScriptRunsIff`: a fresh database takes the script if and only if every
  foreign key references a declared key of a known table and the references have no
  cycle, and it then holds exactly the rows of the dump.
- `History.EveryUpgradeIsSound` and `Script.Server.Deploy`: the same for every upgrade
  in the life of a database, refused ones included, and for the generator and a
  server that executes its statements in place.

**The discipline.** The theorems about deployed databases rely on a discipline that
the source does not state (`Migrations.Disciplined`): no table or column name that
was renamed away comes back; nothing is renamed onto a table that was dropped, or
onto a column that was dropped from the table, under whatever name the table has by
then (columns of a dropped and recreated table all count as dropped); a column rename
names its table as it is called at the end; and the temporary names of rebuilds are
used for nothing else. Where parts of it fail, the project says exactly what happens:

- the script emits table renames before column renames, which differs from registry
  order exactly when a column rename that takes effect is followed by a rename of
  its table (`KindOrder.KindOrderMattersIff`);
- one pass of the renames is a fixed point exactly when neither the tables nor the
  columns of a table are jammed (`RenameLimits.PassIsFixedIff`);
- a populated table that is declared and also a rename's source keeps its rows
  under its name exactly when each such rename finds its target taken
  (`RenameLimits.DeclaredSourceKeepsRowsIff`);
- the documentation of `render_evolution_ops` calls the replay a no-op on a database
  that is "already converged"; it is one exactly when no rename's guard holds in the
  declared schema itself (`RenameLimits.ConvergedIsSilentIff`), and
  `RenameLimits.ConvergedYetRenamed` is a chain where one does.

**Scanners** (`Masks`, `Tokens`, `CommentMask`, `CommentTokens`, `Localized`,
`Findings`, `Baseline`).
Three hand-written lexers over the same text, the element blanker, and the
algebra of findings and baseline entries behind the gate's exit code. Every text
is a sequence of tokens, and the masks are what they make of each token. An
escaped line break inside a string is blanked by two of the masks although
their documentation promises to keep line numbers; the lemmas say exactly when
line breaks survive.

**Fluent bundles** (`PyText`, `FtlDedupe`, `FtlPatterns`, `FtlBlocks`,
`ScaffoldLine`, `BlockShape`, `BlockOrder`, `Scaffold`). Deduplication keeps the first
definition of every key, and a generated scaffold passes its own validator
exactly when the source does not define a key twice, apart, with different
counts. The documentation of `scaffold_value_line` promises that a second run
changes nothing; with a sentinel that is not blank, that holds exactly for lines with
an equals sign and sentinels that do not begin with a blank
(`ScaffoldLine.RewritingAgainIff`).

**Key file** (`ScryptParams`, `KeyFile`, `KeyFileFormat`). Both branches of the parameter choice
compute one optimum, which meets section 2 of RFC 7914; a key file decrypts to
a key pair exactly when the builder makes its blob from that pair.

**Span deletion and mail sink** (`Spans`, `SmtpSink`).

## Model

| member | source | states |
|---|---|---|
| Catalog.ReplayKeepsWellFormed | scripts/generate-pg-migration.py:1197-1219 | any replay of guarded renames keeps "every row has exactly the table's columns, and a NOT NULL column holds no NULL" |
| Script.SchemaEvolutionOps | scripts/generate-pg-migration.py:534-559 | the two lists are the chain's renames divided by kind, each in registry order, rebuilds included |
| Tracking.PrefixTracks | scripts/generate-pg-migration.py:545-547 | the state a disciplined chain leaves is on the track of the chain: the source of every rename is gone |
| Tracking.TracksAhead | scripts/generate-pg-migration.py:1238-1250 | replaying the renames of any further stretch keeps a deployed database on the track of the chain, drops, rebuilds and later renames of such tables included, and none of the renames finds its target taken |
| RenameReplay.KindOrderIsHarmless | scripts/generate-pg-migration.py:1228-1230 | replaying all table renames before all column renames gives what registry order gives, when column renames use final table names |
| KindOrder.KindOrderMattersIff | scripts/generate-pg-migration.py:1228-1250 | for a list that brings no name back and meets no taken target, table renames first gives what registry order gives if and only if no column rename that takes effect is followed by a rename of its table |
| KindOrder.PassIsFaithfulIff | scripts/generate-pg-migration.py:1238-1250 | the same for the whole pass over a deployed database and the outstanding steps of any chain whose renames bring no name back |
| RenameReplay.SeenRenamesAreSilent | scripts/generate-pg-migration.py:1197-1219 | renames that a database has already run do nothing when they are replayed |
| RenameReplay.ReplayCompletes | scripts/generate-pg-migration.py:534-559 | on any deployed database, replaying every rename of a disciplined chain equals replaying just the outstanding ones, in order |
| RenameReplay.ReplayCompletesAnyPrefix | scripts/generate-pg-migration.py:534-559 | in particular on a database at any prefix of the chain |
| RenameReplay.RenamesReachTheFullChain | scripts/generate-pg-migration.py:1221-1271 | when only renames are outstanding, the replay gives exactly the tables, columns and rows of the full chain |
| RowFlow.ReplayCarries | scripts/generate-pg-migration.py:1232-1236 | any replay, disciplined or not, loses nothing: every table turns up under one new name with its rows in order and every cell under its column's new name |
| RenameLimits.FixedPointIffNotJammed | scripts/generate-pg-migration.py:1197-1206 | one pass over the table renames, repeated rebuild renames among them, is a fixed point if and only if no table reachable along the others (each name left once, taken once) finds its next name taken and that name's holder moves on |
| RenameLimits.PassIsFixedIff | scripts/generate-pg-migration.py:1238-1250 | one pass of the whole block is a fixed point if and only if no tables are jammed in this way and, once the tables have moved, no columns of one table are |
| RenameLimits.NoOpIffSilent | scripts/generate-pg-migration.py:1263-1264 | the pass leaves a database as it is if and only if none of its renames fires there |
| RenameLimits.ConvergedIsSilentIff | scripts/generate-pg-migration.py:1263-1264 | on a converged database the pass is a no-op if and only if the declared schema satisfies the guard of no rename |
| RenameLimits.ConvergedYetRenamed | scripts/generate-pg-migration.py:1263-1264 | the chain A to B, B to C, create A: on the very database it ends with, the first rename fires |
| RenameLimits.DeclaredSourceKeepsRowsIff | scripts/generate-pg-migration.py:1197-1206 | the rows of a populated declared table that no rename targets stay under its name if and only if every rename of it finds the new name taken |
| RenameLimits.TwoNamesOfOneLineage | scripts/generate-pg-migration.py:1197-1206 | A to B to C on a database holding A and B: the second pass still changes the database |
| RenameLimits.ColumnRenamedUnderAnOldTableName | scripts/generate-pg-migration.py:1238-1250 | a column rename written under its table's old name is skipped, because table renames are emitted first |
| RenameLimits.DeclaredSourceLosesItsRows | scripts/generate-pg-migration.py:1197-1206 | such a table with a free target: its rows end up under the other name and the table is created again empty |
| Reconcile.ReconcileKeeps | scripts/generate-pg-migration.py:1157-1192 | the loop changes no value of a column that was there and keeps "NOT NULL holds no NULL" |
| Reconcile.ReconcileSettles | scripts/generate-pg-migration.py:1133-1135 | on exit every declared column of an existing table is there, and each one declared NOT NULL is NOT NULL or holds a NULL |
| Reconcile.ReconcileIsExact | scripts/generate-pg-migration.py:1157-1192 | a column exists afterwards iff it did before or is declared, and is NOT NULL iff it was or is declared so and holds no NULL |
| Reconcile.AddedColumnIsDeclared | scripts/generate-pg-migration.py:1158-1167 | a column that was missing has the type of its declaration, and every row its default |
| Reconcile.WarningsAreExact | scripts/generate-pg-migration.py:1183-1189 | a warning is raised for exactly the NOT NULL declarations that stay nullable |
| Reconcile.ReconcileIdempotent | scripts/generate-pg-migration.py:1169-1171 | a second run of the block changes nothing |
| Convergence.ConvergeMerges | scripts/generate-pg-migration.py:1131-1134 | from any evolved database, reconciliation and guarded creates give it merged with the declared schema: its own and the declared columns, their types, NOT NULL exactly where it was or where it is declared and the rows allow it, its cells unchanged |
| Convergence.ReachedIff | scripts/generate-pg-migration.py:1131-1134 | the merged schema is the declared one if and only if every table and column of the evolved database is declared, with the same type |
| Convergence.Converges | scripts/generate-pg-migration.py:1131-1134 | evolution, reconciliation and guarded creates on any deployed database: its tables and columns, as the outstanding renames move them, merged with the declared schema; it stays on the track of the chain |
| Convergence.ConvergesFromAnyPrefix | scripts/generate-pg-migration.py:1131-1134 | the same three parts from any prefix of the chain |
| Convergence.ConvergeIsIdempotent | scripts/generate-pg-migration.py:1263-1264 | repeating the three parts on a deployed database changes no table, column, flag or row, whatever the chain dropped |
| Convergence.TrackedIsSilent | scripts/generate-pg-migration.py:1263-1264 | no rename fires on a database that is on the track of the whole chain |
| Convergence.FreshDatabase | scripts/generate-pg-migration.py:1140-1142 | on an empty database evolution and reconciliation are no-ops and the creates build the final schema |
| Leftovers.WithinIff | scripts/generate-pg-migration.py:1254-1257 | replayed on any deployed database, the renames of any stretch leave it within the tables and columns of the chain if and only if the stretch brings back whatever was stray and drops nothing for good that the database then has |
| Leftovers.NothingLeftIff | scripts/generate-pg-migration.py:1254-1257 | for any deployed database and any disciplined chain: exactly the declared tables and columns are there afterwards if and only if the outstanding steps bring back every stray one and drop none for good that the database then has |
| Leftovers.DroppedColumnStays | crates/kasirmu-core/migrations/20260831_loyalty_multiplier_fixedpoint.sql:38 | a database from before this drop keeps the column, so the declared schema is not reached |
| History.OneUpgrade | scripts/generate-pg-migration.py:1510-1542 | the whole script from any point of the chain to the point of a release: lawful, on track, declared columns there, no row lost, no cell changed but by a declared update, and the exact condition of an idle second run |
| History.LifeTracks | scripts/generate-pg-migration.py:1510-1542 | whatever releases went through or were refused since the database was created empty, and whatever was done to its rows between them, it is on the track of the chain before each release |
| History.EveryUpgradeIsSound | scripts/generate-pg-migration.py:1510-1542 | each upgrade of every such life that goes through keeps keys and foreign keys, loses no row, changes only cells that declared updates write, has the declared columns, and is idle when repeated exactly under the stated condition |
| Script.Server.constructor | scripts/generate-pg-migration.py:1510-1515 | a database to run the script against |
| Script.Server.RenameTable | scripts/generate-pg-migration.py:1197-1206 | the guarded table rename, in place |
| Script.Server.RenameColumnOf | scripts/generate-pg-migration.py:1208-1219 | the guarded column rename, in place |
| Script.Server.RunEvolution | scripts/generate-pg-migration.py:1238-1270 | the evolution block is the replay of both lists, tables first |
| Script.Server.RunReconciliation | scripts/generate-pg-migration.py:1157-1192 | the loop's final database and warnings are those of the specification |
| Script.Server.RunBlock | scripts/generate-pg-migration.py:1348-1367 | one guarded update: a no-op where its table is missing, refused when a NOT NULL column, a key or a foreign key forbids the new rows |
| Script.Server.Replace | scripts/generate-pg-migration.py:1359-1367 | a change of rows takes effect exactly when the table may hold them |
| Script.Server.RunSeed | scripts/generate-pg-migration.py:628-645 | INSERT with ON CONFLICT DO NOTHING, row by row |
| Script.Server.CreateIfMissing | scripts/generate-pg-migration.py:1527-1530 | CREATE TABLE IF NOT EXISTS, refused when a foreign key finds no key to reference |
| Script.Server.BuildIfMissing | scripts/generate-pg-migration.py:1465-1483 | CREATE INDEX IF NOT EXISTS, refused when a column is missing or rows repeat the key of a new unique index |
| Script.Server.Execute | scripts/generate-pg-migration.py:1506-1542 | one statement of the script, of any kind |
| Script.Server.RunScript | scripts/generate-pg-migration.py:1139-1144 | the script is one transaction: it goes through as a whole or changes nothing |
| Script.Server.Deploy | scripts/generate-pg-migration.py:1440-1545 | generate and run on any deployed database: goes through exactly when nothing refuses it; then the merged catalog, no row lost, only declared cells changed, the exact condition of an idle second run; otherwise the database is as before |
| TableOrder.BuildEdges | scripts/generate-pg-migration.py:585-591 | each counter is the number of known references other than itself, and the reverse edges list each dependency once |
| TableOrder.Drain | scripts/generate-pg-migration.py:592-600 | every popped table follows its references, and each table that is left waits for another that is left |
| TableOrder.AppendMissing | scripts/generate-pg-migration.py:601-604 | the fallback appends the tables not yet ordered, in their original order |
| TableOrder.TopoSort | scripts/generate-pg-migration.py:580-605 | a permutation for every graph; references first exactly when there is no cycle, and the fallback appends nothing exactly then |
| Graph.WaitingSetHasCycle | scripts/generate-pg-migration.py:601 | a set of tables that all wait for each other contains a cycle (pigeonhole) |
| Graph.LeftoverMeansCycle | scripts/generate-pg-migration.py:601-604 | when the queue runs dry early the references have a cycle |
| Graph.OrderRulesOutCycles | scripts/generate-pg-migration.py:581 | an order with references first exists only without cycles |
| Graph.KahnIsComplete | scripts/generate-pg-migration.py:580-605 | the order is right if and only if the references have no cycle |
| Storage.ReplayKeepsLawful | scripts/generate-pg-migration.py:1197-1219 | guarded renames of tables and columns carry keys, unique indexes and foreign keys along, and all still hold |
| ConstraintFlow.ReplayMovesConstraints | scripts/generate-pg-migration.py:1197-1219 | for any replay there are one-to-one new names of tables and columns under which rows and cells are the same, every key, index and foreign key of the old database is one of the new, with its columns, scope and uniqueness, and every one of the new comes from the old |
| Storage.KeysAreSql | scripts/generate-pg-migration.py:1197-1219 | two rows agree on a key iff both pass every test of its predicate and hold the same text in each of its columns, so NULL never agrees |
| Storage.LinksAreSql | scripts/generate-pg-migration.py:1197-1219 | a foreign key holds iff every child row has a NULL in it or a parent row with the same texts |
| Emission.ExecKeepsLawful | scripts/generate-pg-migration.py:1136-1149 | NOT NULL, keys, unique indexes and foreign keys hold after every statement of the script that is not refused |
| Ddl.OrderMeetsRefsIff | scripts/generate-pg-migration.py:580-605 | the order of the sort creates every other table before it is referenced if and only if all references are known and have no cycle |
| Ddl.SectionRunsIff | scripts/generate-pg-migration.py:1527-1530 | on any lawful database the table section goes through if and only if each missing table finds the keys it references and no missing unique index meets two rows with one key; it then adds exactly the missing tables and indexes |
| Fresh.FreshSectionRunsIff | scripts/generate-pg-migration.py:1475-1480 | a fresh database takes the table section if and only if every reference is to a declared key of a known table and there is no cycle |
| Rendering.SplitIndexes | scripts/generate-pg-migration.py:1453-1483 | unique indexes go to their tables and the others to one list, each in the order of their names |
| Rendering.RenderTables | scripts/generate-pg-migration.py:1527-1530 | the loop emits each table followed at once by its unique indexes |
| Rendering.Render | scripts/generate-pg-migration.py:1440-1545 | the script is exactly: obsolete indexes, evolution, reconciliation, repairs, the tables of the sort with their unique indexes, backfills, triggers, other indexes, one seed per filled table and row security |
| Upgrade.ScriptRunsIff | scripts/generate-pg-migration.py:1506-1542 | on any lawful database the whole script runs to the end if and only if no update is refused, the table section fits and the seeds are accepted |
| ScriptConstraints.ScriptKeepsConstraints | scripts/generate-pg-migration.py:1506-1542 | after a script that went through, the keys, indexes and foreign keys are those of the old database under their new names, but for the obsolete indexes, and the declared ones of missing tables and indexes; nothing else |
| ScriptConstraints.FreshConstraints | scripts/generate-pg-migration.py:1506-1542 | what the dump of a fresh run holds: exactly the declared columns, keys, indexes and foreign keys |
| Fresh.FreshScriptRunsIff | scripts/generate-pg-migration.py:1510-1542 | a fresh database takes the whole script if and only if every reference is to a declared key of a known table and there is no cycle, and ends with exactly the rows of the dump |
| Rendering.CreateFollowsItsReferences | scripts/generate-pg-migration.py:1475-1480 | for the order the sort gives on a schema without cycles: before each CREATE TABLE of the script stand the CREATE TABLE and every unique index of each other table it references |
| Seeds.SeedsLoad | scripts/generate-pg-migration.py:629-630 | in the order of the sort the seeds of a fresh database all run: after those of the first tables exactly these hold their source rows, and no foreign key is ever broken |
| Deployment.SeedFitsIff | scripts/generate-pg-migration.py:1257-1260 | a seed fits the columns of the upgraded table if and only if the table it found has no NOT NULL column for which the seed has no value |
| Upgrade.ReadiedHasDeclared | scripts/generate-pg-migration.py:1115-1124 | after reconciliation every existing table has all its declared columns, which is what indexes and updates need |
| Repairs.UpdateTouches | scripts/generate-pg-migration.py:445-486 | an update leaves rows that it does not select as they are, and of the others only the columns it writes change |
| Repairs.NewestStaysOpen | apps/cloud-server/tests/pg_init_reconciliation.rs:226-234 | of the open shifts of a user one stays open, and none is newer |
| Repairs.OnlyTheLatestStays | scripts/generate-pg-migration.py:445-461 | a row is unchanged iff it is not open or its user has no open row with a later opened_at, or the same opened_at and a later id, compared as text: the first difference decides, and a prefix is the smaller |
| Repairs.EarlierIsClosed | scripts/generate-pg-migration.py:445-461 | of two open shifts of one user the one that was opened earlier is closed |
| Repairs.SmallerIdIsClosed | scripts/generate-pg-migration.py:445-461 | of two opened at the same time the one with the smaller id is closed |
| Repairs.ClosedCells | scripts/generate-pg-migration.py:445-461 | every cell of a closed row: status, closing time, the cleared amounts, the note in each of its cases, and all others as they were |
| Repairs.StampedCells | scripts/generate-pg-migration.py:480-486 | a recipient of the default tenant gets the tenant of its memo; others, and those without a memo, stay |
| Repairs.ClosingIsRunnableIff | scripts/generate-pg-migration.py:445-461 | the repair can be run iff the table has the ten columns that it names |
| Repairs.StampingIsRunnableIff | scripts/generate-pg-migration.py:483-486 | the backfill can be run iff both tables have the columns that it names and no recipient names a memo that is there twice |
| Repairs.KeyedMemosAreOne | scripts/generate-pg-migration.py:483-486 | the scalar subquery cannot fail where the ids of the memos are a key |
| Repairs.OneMemoEachIff | scripts/generate-pg-migration.py:483-486 | the scalar subquery fails iff a recipient of the default tenant names a memo that is there twice |
| Repairs.RepairMakesApplicableIff | scripts/generate-pg-migration.py:412-421 | after the repair the unique index meets no repeated key if and only if no user has two newest open shifts |
| Repairs.UpdatedIsQuiet | scripts/generate-pg-migration.py:1412-1424 | an update that has run has nothing left to do |
| RepairFits.ClosingRunsIff | scripts/generate-pg-migration.py:445-461 | the repair is refused if and only if some shift has to be closed and an old table has a column that it clears as NOT NULL |
| RepairFits.StampingRunsIff | scripts/generate-pg-migration.py:483-486 | the backfill is refused if and only if its column is NOT NULL and the memo of a selected row has no tenant |
| OpenShifts.OpenIndexFitsIff | scripts/generate-pg-migration.py:1370-1381 | in the whole script, with the repair: the missing index on open shifts can be built if and only if no user has two newest open shifts |
| OpenShifts.RepairSuffices | apps/cloud-server/tests/pg_init_reconciliation.rs:150-216 | with distinct ids and no NULL in id and opened_at it always can |
| OpenShifts.BareIndexIsRefused | apps/cloud-server/tests/pg_init_reconciliation.rs:17-24 | without the repair, two open shifts of one user stop the whole script |
| RowsKept.ScriptLosesNothing | scripts/generate-pg-migration.py:1232-1236 | the whole script on any lawful database: every table and row is kept, old rows first, each column in one of its own, and only cells in columns that a declared update writes may change |
| Again.SecondRunIff | scripts/generate-pg-migration.py:643-644 | when no rename fires any more and no seed goes to a table of an update, a second run changes nothing if and only if reconciliation has nothing left to do and every seed row has a key |
| Settling.SettledIff | scripts/generate-pg-migration.py:1169-1189 | reconciliation has nothing left to do after a run if and only if the updates overwrote the last NULL of no NOT NULL column that had to stay nullable |
| Settling.RunningAgainIff | scripts/generate-pg-migration.py:1169-1189 | the two together: the condition of an idle second run, on the database before the first |
| Settling.LastNullIsOverwritten | scripts/generate-pg-migration.py:445-461 | two open shifts of a user, the older without updated_at: the column then loses its last NULL |
| Deployment.UpgradeIsSound | scripts/generate-pg-migration.py:1510-1542 | what an upgrade of a deployed database that goes through leaves: lawful, on track, the merged catalog, rows and cells kept but for declared updates, and the exact condition of an idle second run |
| Deployment.UpgradeRunsIff | scripts/generate-pg-migration.py:1510-1542 | an upgrade of a deployed database goes through if and only if no update is refused, each missing table finds the keys it references, no missing unique index meets a repeated key, no legacy NOT NULL column refuses a seed, and added rows find their parents |
| Deployment.DroppedColumnRefuses | scripts/generate-pg-migration.py:1232-1236 | a NOT NULL column without default that the chain dropped refuses the seed of its table |
| Seeds.DumpSeeds | scripts/generate-pg-migration.py:628-645 | one INSERT per non-empty table, in table order |
| Seeds.InsertRunsIff | scripts/generate-pg-migration.py:640-644 | a seed is refused if and only if a NOT NULL column is left NULL by one of its rows or a row that it adds references a parent that is not there |
| Inserting.InsertAdds | scripts/generate-pg-migration.py:640-644 | an insert that goes through leaves the rows of the table in front and adds, in order, exactly the rows that agree on no key with a row of the table or an earlier one of them, with the cells given and the defaults of the columns left out |
| Storage.InsertAgainIff | scripts/generate-pg-migration.py:643 | repeating an insert adds nothing if and only if some key applies to each of its rows |
| Masks.MaskCommentsAndStrings | scripts/verify-architecture-boundaries.py:346-391 | the scanner's loops write the mask of the token-wise specification |
| Masks.StripCommentsPreservingStrings | scripts/verify-architecture-boundaries.py:394-439 | the same for the stripping scanner |
| Masks.MaskBlanks | scripts/verify-architecture-boundaries.py:346-391 | length is kept and every output character is the input's or a space or line break, for every text |
| Masks.StripBlanks | scripts/verify-architecture-boundaries.py:394-439 | length, offsets and all line breaks are kept, for every text |
| Masks.MaskKeepsNewlinesIff | scripts/verify-architecture-boundaries.py:365-368 | every line break survives if and only if no string escapes one |
| Masks.MaskAfterStrip | scripts/verify-architecture-boundaries.py:346-439 | masking the stripped text is masking the text: both scanners find the same tokens |
| Masks.StripIdempotent | scripts/verify-architecture-boundaries.py:394-439 | stripping twice is stripping once |
| Masks.MaskIdempotent | scripts/verify-architecture-boundaries.py:346-391 | masking twice is masking once |
| Tokens.MasksOfTokens | scripts/verify-architecture-boundaries.py:346-439 | for any sequence of code characters, literals with escapes, line comments and block comments, what each mask writes, token by token |
| Tokens.StripShows | scripts/verify-architecture-boundaries.py:394-439 | code and strings, quotes and escapes included, are the characters of the input; comments and their delimiters are blank or line breaks of the input |
| Tokens.EveryTextIsTokens | scripts/verify-architecture-boundaries.py:346-439 | every text is such a sequence, unfinished literals and comments at its end included |
| CommentMask.MaskCodePreservingComments | scripts/verify-architecture-boundaries.py:442-514 | the scanner's loop writes the comment mask of the specification, nested comments and character literals included |
| CommentMask.CommentsBlanks | scripts/verify-architecture-boundaries.py:442-514 | length is kept and every output character is the input's or blank |
| CommentMask.CommentsKeepNewlinesIff | scripts/verify-architecture-boundaries.py:479-482 | every line break survives if and only if none is taken by a two- or three-character token outside comments |
| CommentMask.MaskShowsCode | scripts/verify-architecture-boundaries.py:346-391 | the full mask shows exactly the code characters, whatever the text |
| CommentMask.CommentsShowComments | scripts/verify-architecture-boundaries.py:442-514 | the comment mask shows exactly the comment characters when single quotes in code open character literals and block comments do not nest; quotes in comments and strings are free |
| CommentMask.MasksAreComplementary | scripts/verify-architecture-boundaries.py:442-514 | then no offset is visible in both masks, and every offset outside strings and delimiters is kept by one of them |
| CommentTokens.CommentsOfPieces | scripts/verify-architecture-boundaries.py:442-514 | for any sequence of code, character literals, strings, line comments and nested comments, what the comment mask writes, piece by piece |
| CommentTokens.EveryTextIsPieces | scripts/verify-architecture-boundaries.py:442-514 | every text is such a sequence |
| CommentMask.LoneQuoteSplitsTheScanners | scripts/verify-architecture-boundaries.py:442-514 | a single quote that opens no character literal, such as a lifetime's, opens a string for the full mask and nothing for the comment mask |
| CommentMask.NestedOpenerSplitsTheScanners | scripts/verify-architecture-boundaries.py:442-514 | after a nested opener the full mask reads code where the comment mask still reads a comment |
| Localized.BlankLocalizedSubtrees | scripts/scan-fluent-hardcoded.py:146-212 | the in-place loops terminate on every text and write the specified blanking |
| Localized.FindClose | scripts/scan-fluent-hardcoded.py:175-203 | the depth counter stops behind the tag that closes the element, or at the end of the text |
| Localized.BlankedKeepsOffsets | scripts/scan-fluent-hardcoded.py:147-152 | length and line breaks are kept and every other character is kept or blanked, for every text |
| Localized.CloseSkipsForest | scripts/scan-fluent-hardcoded.py:175-203 | inside an element, printed text and whole elements are stepped over at an unchanged depth |
| Localized.BlankingIsExact | scripts/scan-fluent-hardcoded.py:146-212 | on every printed forest of elements (attributes with quoted values and no bare `>`, text free of the tag strings) exactly the elements are blanked, nested and self-closing ones included |
| Localized.BlankingShows | scripts/scan-fluent-hardcoded.py:146-212 | character by character: those of elements are blank, but for their line breaks, and all others are shown |
| Localized.MarksAre | scripts/scan-fluent-hardcoded.py:157-190 | the opening and closing tag and the two quotes, spelled out |
| Findings.DedupeFindings | scripts/verify-architecture-boundaries.py:738-744 | the result holds exactly one representative per key, in key order |
| Findings.RepresentativeIs | scripts/verify-architecture-boundaries.py:742-743 | the representative is the key's first located finding, or its first finding when none is located |
| Findings.DedupedIsUnique | scripts/verify-architecture-boundaries.py:738-744 | the representatives determine the result |
| Findings.KeysAscend | scripts/verify-architecture-boundaries.py:744 | the result ascends by rule, then path, then target |
| Findings.PassesMayDedupeFirst | scripts/verify-architecture-boundaries.py:916-921 | deduplicating any number of deduplicated passes is deduplicating all their findings at once |
| Baseline.ReadEntry | scripts/verify-architecture-boundaries.py:754-772 | an entry is accepted if and only if it is an object whose seven fields are there and not blank, its rule is known, and its dates can be read, are in order and not in the future |
| Baseline.LoadBaseline | scripts/verify-architecture-boundaries.py:747-782 | a baseline loads if and only if every entry is accepted and no two agree on rule, canonical path and target; it then has exactly those entries |
| Baseline.LoadsIff | scripts/verify-architecture-boundaries.py:747-782 | a baseline loads iff every entry has each required field with something in it, a known rule, readable dates in order and none in the future, and no two entries have the same rule, path and target |
| Baseline.ApplyBaseline | scripts/verify-architecture-boundaries.py:785-812 | the loops compute the specified division of findings and entries |
| Baseline.FindingsAreDivided | scripts/verify-architecture-boundaries.py:785-812 | tracked and blocking divide the findings, and expired with new ones make up the blocking |
| Baseline.BaselineIsDivided | scripts/verify-architecture-boundaries.py:807-811 | an entry is stale exactly when no finding has its key |
| Baseline.DivisionIs | scripts/verify-architecture-boundaries.py:784-810 | tracked are the findings with an entry that has not expired, blocking those without an entry or with an expired one, expired the latter, stale the entries without a finding; each in its order and marked with its status |
| Baseline.CleanIff | scripts/verify-architecture-boundaries.py:933-935 | nothing blocks and nothing is stale iff findings and baseline have the same keys and no entry has expired |
| Baseline.Gate | scripts/verify-architecture-boundaries.py:898-935 | from the raw findings of the four passes and the raw baseline: 2 iff the baseline is malformed, otherwise 0 iff only reporting or the key sets agree and nothing has expired |
| FtlDedupe.ProcessLines | scripts/dedupe-ftl.py:110-132 | the line loop refines "split into blocks, keep each key's first block" |
| FtlDedupe.ProcessFile | scripts/dedupe-ftl.py:98-136 | the written text and both line counts |
| FtlDedupe.KeyIff | scripts/dedupe-ftl.py:91 | a line has a key iff it is that name, blanks, an equals sign and a rest |
| FtlDedupe.BoundaryIff | scripts/dedupe-ftl.py:95 | a line begins a block iff it has a key or begins with a number sign |
| FtlDedupe.ProcessKeepsSurvivors | scripts/dedupe-ftl.py:98-136 | the output is the lines of exactly the blocks that no earlier block of their key precedes, verbatim and in order |
| FtlDedupe.Reparse | scripts/dedupe-ftl.py:91-95 | reading the written blocks back gives the same blocks |
| FtlDedupe.LookupKept | scripts/dedupe-ftl.py:123-128 | every key keeps its first definition |
| FtlDedupe.DedupeIsIdempotent | scripts/dedupe-ftl.py:152-161 | a second pass changes nothing, output keys are distinct and each has its first definition |
| FtlBlocks.CollectBlocks | scripts/translate-stub.py:152-222 | the loop with its nested flush computes the specified headers and blocks |
| FtlPatterns.AttrIff | scripts/translate-stub.py:118 | a line is an attribute iff it is blanks, a dot, an identifier, blanks, an equals sign and a rest |
| FtlPatterns.MatchesAtIff | scripts/translate-stub.py:116-117 | a placeholder or select stands at a position iff a brace, blanks, a dollar sign with an identifier, blanks and the closing brace or arrow do |
| FtlBlocks.CollectIsReading | scripts/translate-stub.py:174-222 | flushing, merging and separating amount to a plain line-by-line count per key |
| BlockShape.CollectIsShaped | scripts/translate-stub.py:174-222 | a block opens with its key's line and holds only that key's lines, and neighbours never share a key |
| BlockOrder.HeadersAre | scripts/translate-stub.py:202-206 | the headers are the comments before the first key, in order |
| BlockOrder.SeparatorsAre | scripts/translate-stub.py:198-201 | there is one separator for each blank line |
| BlockOrder.BlocksStandInOrder | scripts/translate-stub.py:196-222 | each separator stands for the blank line at its place, and each real block opens with the line there, in the order of the text |
| BlockOrder.LinesAreArranged | scripts/translate-stub.py:174-222 | every visible line behind the first key, but for those of a key named like the separator, is kept in order; only within a run that ends at a blank line or key do the attributes go behind the other lines |
| ScaffoldLine.WrittenReadsTheSame | scripts/translate-stub.py:230-251 | the rewritten line is of the same kind, under the same key, with the same placeholders and selects |
| ScaffoldLine.WrittenRewrites | scripts/translate-stub.py:230-251 | a comment stays; any other line reads as the text up to its first equals sign, a space, the sentinel and the value without leading blanks, or stays if the value begins with the stripped sentinel; a line without an equals sign ends in a space and the sentinel |
| ScaffoldLine.RewritesIsUnique | scripts/translate-stub.py:230-251 | that determines the line that is written |
| ScaffoldLine.RewritingAgainIff | scripts/translate-stub.py:240-251 | rewriting a rewritten line changes nothing iff the sentinel is blank, or the line has an equals sign and the sentinel does not begin with a blank |
| ScaffoldLine.IndentIsSilent | scripts/translate-stub.py:322 | matching the attribute pattern after stripping the indentation selects the same lines |
| Scaffold.ScaffoldBundle | scripts/translate-stub.py:254-287 | the loops write the specified scaffold |
| Scaffold.ScaffoldReads | scripts/translate-stub.py:254-287 | the scaffold is the five lines of the hint, the header comments, and for each block a blank line or its visible lines, each rewritten |
| Scaffold.ValidateScaffold | scripts/translate-stub.py:295-341 | the validator reports the specified failures |
| Scaffold.FailuresAre | scripts/translate-stub.py:295-341 | for any two texts exactly these failures are reported: equal texts, the missing keys, the added keys, and each block whose placeholders, selects or attributes are not as many as in the first block of its key |
| Scaffold.ScaffoldSummary | scripts/translate-stub.py:254-287 | parsed again, the scaffold has the same keys and counts in the same order, and five more header lines |
| Scaffold.ScaffoldPassesIff | scripts/translate-stub.py:295-341 | for every source, every sentinel free of braces, `=`, `>` and line breaks and every one-line hint, the scaffold passes its gate iff every block has the counts of its key's first block |
| Scaffold.ScaffoldPasses | scripts/translate-stub.py:295-341 | a source with distinct keys gets a scaffold that passes |
| ScryptParams.PickParams | scripts/extract-updater-seed.py:59-78 | for all 64-bit limits both branches compute the optimum: N the largest power of two that fits, p the largest parallelism that then fits; the cap of 63 is not reached |
| ScryptParams.OptimumIsUnique | scripts/extract-updater-seed.py:59-78 | the limits determine N, r and p |
| ScryptParams.OptimumMeetsRfc7914 | scripts/extract-updater-seed.py:59-78 | N > 1 is a power of two below 2^(128 r / 8), p and r p are in range (section 2 of RFC 7914), and 32 N p stays within the larger of opslimit and 32768 |
| ScryptParams.MemoryIsRespectedIff | scripts/extract-updater-seed.py:69-78 | 128 r N stays within memlimit if and only if memlimit is at least 2048 |
| KeyFile.ParseOfPrint | scripts/extract-updater-seed.py:98-111 | parsing a built blob gives back its fields, the little-endian limits included |
| KeyFile.PrintOfParse | scripts/extract-updater-seed.py:98-111 | a blob that parses is the one built from its fields |
| KeyFile.BlobLayout | scripts/extract-updater-seed.py:98-111 | the magic, the salt, the limits with their least byte first, and the key number, secret key and checksum at their places |
| KeyFile.FindBlobLine | scripts/extract-updater-seed.py:130-144 | the scan finds the first line that holds a 158-byte blob with the magic |
| KeyFile.ParseKeyFile | scripts/extract-updater-seed.py:114-145 | the fields of the located blob, or the error |
| KeyFile.Decrypt | scripts/extract-updater-seed.py:148-164 | the specified result in every case, errors included |
| KeyFile.BuildKeyFile | scripts/extract-updater-seed.py:187-217 | the wrapped file of the sealed blob, or nothing when scrypt raises an error |
| KeyFile.XorByteBits | scripts/extract-updater-seed.py:151-153 | a bit of the result is set iff the bits of the arguments differ; zero changes nothing and a byte cancels itself |
| KeyFile.SealedFormat | scripts/extract-updater-seed.py:187-217 | each bit of a sealed blob behind its header is the exclusive or of the bit of key number, key and checksum and the bit of the stream |
| KeyFile.SealThenOpen | scripts/extract-updater-seed.py:148-217 | a sealed blob opens under its password |
| KeyFile.OpensIff | scripts/extract-updater-seed.py:148-164 | a blob opens as a key pair iff the builder makes it from that pair under this password |
| KeyFile.LocatedInFile | scripts/extract-updater-seed.py:114-145 | the blob is found in the wrapped and in the plain form of the file |
| KeyFile.KeyFileRoundTrip | scripts/extract-updater-seed.py:148-217 | for every password, salt, key number, key and limits, decrypting the built file gives the two halves of the key |
| KeyFile.DecryptsIff | scripts/extract-updater-seed.py:148-164 | a file decrypts to a key pair iff its located blob is sealed from that pair; in particular the checksum equation holds |
| KeyFileFormat.TextOfIs | scripts/extract-updater-seed.py:118-126 | the text of a file: its own if it begins with the comment, else what it is the base64 form of, else its own |
| KeyFileFormat.TextLinesAre | scripts/extract-updater-seed.py:128 | the lines of a text hold no line break, and with one line break between each two they are the text |
| KeyFileFormat.FirstBlobLineIff | scripts/extract-updater-seed.py:127-138 | the located line is the first that is no comment and strictly decodes to 158 bytes that begin with the magic |
| KeyFileFormat.WrappedFileIs | scripts/extract-updater-seed.py:214-217 | what the builder writes |
| KeyFileFormat.DecryptFailsIff | scripts/extract-updater-seed.py:148-164 | which error a file that does not open is answered with |
| KeyFile.LawsCanHold | scripts/extract-updater-seed.py:81-95 | the laws assumed of scrypt, BLAKE2b, base64 and UTF-8 decoding are consistent |
| Spans.SpanOf | scripts/retire-legacy-commands.py:156-169 | the two loops compute the span between the top of the docs and the closing line, with one blank line below |
| Spans.SpanIff | scripts/retire-legacy-commands.py:156-169 | the span runs from the first of the doc lines directly above to the first closing line, and over one blank line behind it |
| Spans.DocIff | scripts/retire-legacy-commands.py:165 | a line is a doc or attribute iff it is blanks and one of the four beginnings |
| Spans.ClosingIff | scripts/retire-legacy-commands.py:159 | a line closes a span iff it is a brace at column zero and blanks |
| Spans.DefinesIff | scripts/retire-legacy-commands.py:68 | a line defines a name iff it is blanks, the plain or async signature and the name, with no word character behind it |
| Spans.SpansCollideIff | scripts/retire-legacy-commands.py:365-367 | two functions' spans overlap if and only if they share the closing line |
| Spans.AnyOverlap | scripts/retire-legacy-commands.py:365-367 | the test fires exactly when two spans overlap |
| Spans.Delete | scripts/retire-legacy-commands.py:379-383 | clearing marks in place and joining the rest keeps exactly the lines outside all spans, in order |
| Spans.LeftOver | scripts/retire-legacy-commands.py:379-383 | what is left are the lines outside every span, each once and in order |
| Spans.DeletionRemovesTheirLengths | scripts/retire-legacy-commands.py:379-383 | disjoint spans remove exactly the sum of their lengths |
| Spans.FindSpans | scripts/retire-legacy-commands.py:297-383 | the loop over the names finds all spans, or gives up iff a name has not exactly one definition with a closing line |
| Spans.Retire | scripts/retire-legacy-commands.py:297-383 | as far as spans go, something is written iff every name has one definition and a closing line of its own, and then exactly the spans are gone |
| Spans.LostIff | scripts/retire-legacy-commands.py:156-169 | a definition is deleted iff it stands between a retired definition and that one's closing line |
| Spans.RetiredIsGone | scripts/retire-legacy-commands.py:461-464 | no retired name is defined in what is written |
| SmtpSink.Log.constructor | scripts/dev-smtp-sink.py:15 | the shared log starts empty |
| SmtpSink.Connection.constructor | scripts/dev-smtp-sink.py:37-40 | a connection starts without sender, recipients or body |
| SmtpSink.Connection.Receive | scripts/dev-smtp-sink.py:42-89 | one turn of the loop: new state, appended messages and replies |
| SmtpSink.VerbIs | scripts/dev-smtp-sink.py:42-89 | the verb that each beginning of a line selects, whatever its case, in the order of the tests |
| SmtpSink.AddressesAre | scripts/dev-smtp-sink.py:69-75 | MAIL FROM and RCPT TO with one more character, in letters of any case, set the sender and add a recipient: what follows without blanks around it |
| SmtpSink.OtherCommandsAre | scripts/dev-smtp-sink.py:46-89 | what every other line does outside a transfer |
| SmtpSink.RepliesAre | scripts/dev-smtp-sink.py:42-89 | the reply to every line of an open connection |
| SmtpSink.JoinedLinesSplit | scripts/dev-smtp-sink.py:50-64 | the body of a message splits into the lines that were sent |
| SmtpSink.SessionLeavesIdle | scripts/dev-smtp-sink.py:42-89 | after the lines of any session the connection knows exactly its pending sender and recipients |
| SmtpSink.LinesParse | scripts/dev-smtp-sink.py:42-65 | whatever an open connection received is a session, with an unfinished transfer exactly inside DATA |
| SmtpSink.NoBodyOutsideData | scripts/dev-smtp-sink.py:50-66 | outside DATA the body buffer is empty |
| SmtpSink.CapturedIff | scripts/dev-smtp-sink.py:50-64 | a line is captured iff it is the dot that ends a transfer, with the last sender, all recipients since the last transfer or reset, and the exact body |
| SmtpSink.ConnectionsAreIsolated | scripts/dev-smtp-sink.py:27-40 | under any interleaving a connection's state depends on its own lines only |
| SmtpSink.LogIsPerConnection | scripts/dev-smtp-sink.py:52-53 | the log is the captures of the events in their order, each determined by its own connection's lines |
| SmtpSink.MessagesAreTransfers | scripts/dev-smtp-sink.py:52-53 | every logged message of every run is one transfer of a single connection |
| SmtpSink.LogOnlyGrows | scripts/dev-smtp-sink.py:15 | later events never change an earlier message |

## Left out

- Changes of a column's type, which the script does not replay, and the order of columns.
- A column's default is its evaluated value, one for all rows; the `now` expressions and SQL quoting are text substitutions.
- Script.SchemaEvolutionOps: the chain arrives parsed; the two regular expressions over SQL text, which would also match inside a comment, are not part of this model.
- RenameReplay.KindOrderIsHarmless: gives one direction for the condition a chain's author can check; the exact condition is KindOrder.KindOrderMattersIff.
- `check_rls_coverage`, trigger parity, `check_reconciliations` and the obsolete indexes: each compares declared names with those in the dump and stops the generator, or drops an index by name; none of them changes what is emitted otherwise.
- Rendering.Render: models statements, not their text, so a syntactically invalid statement is outside it.
- Deployment.UpgradeRunsIff: CHECK constraints and triggers of tables that already exist could refuse a row too and are not modelled; neither is the order in which an UPDATE visits rows, which matters only when a key is repeated in between.
- Repairs.OnlyTheLatestStays: text is compared in code point order, not in the collation of the database.
- Regular expressions are recognizers for the lines they match, for identifiers of ASCII letters, digits, underscores and dashes.
- Text is read with universal line breaks, so a carriage return does not occur in Fluent bundles, Rust sources or command modules; the key file, read as bytes, keeps it.
- Findings.DedupeFindings: `sorted` is an insertion sort by key, because keys are distinct and the line number never decides.
- Baseline.ReadEntry: reading a date and making a path canonical are parameters, and a field that is no string counts as missing.
- Baseline.LoadBaseline: starts from the list of entries; a file without such a list is a load error of the JSON reading, which is not modelled.
- Baseline.ApplyBaseline: findings are values, so the marks it sets in shared dictionaries are marks on the results only.
- `find_getstring_fallbacks` and `brace_block`: they find call sites by a regular expression and count brackets to the end of the call or block.
- KeyFile.Decrypt: scrypt, BLAKE2b, base64 and UTF-8 decoding are parameters with stated laws, and scrypt may raise an error where its memory bound is too small.
- KeyFile.FindBlobLine: `splitlines` may differ in empty lines, which the scan skips.
- `load_committed_pubkey` and the command line of the key tool.
- Spans.Retire: the aborts on mentions in other files (paths, plans, tests) before the deletion are not modelled, nor are the rewriting of doc lines and the checks of bare prose and of the attribute count after it.
- SmtpSink.Connection.Receive: the end of the input inside DATA, where the source reads empty lines forever, is not an event; neither does the sink remove the doubled dots of section 4.5.2 of RFC 5321.
- SmtpSink.VerbOf: upper-casing is that of ASCII letters, while Python also maps a few other characters to them.
- SmtpSink.MessagesAreTransfers: recipient lists are values, so the copy that the source takes at capture is implicit.
- The greeting of the mail sink, which is sent before the first line.
- SQLite, PostgreSQL, git, cargo, sockets and files: their results are inputs.
