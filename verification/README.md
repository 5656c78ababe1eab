# Verified models of the inventory core

A Dafny model of the parts of this inventory system whose correctness is a matter of whole runs rather than of
single functions, with proofs. `dafny verify dfyconfig.toml` checks everything. `Common.dfy` holds the few shared
definitions.

**`pagination/`** - keyset pagination. Sort keys and the NULLS LAST order (`SortOrder`), WHERE clauses under SQL's
three-valued logic (`SqlLogic`), cursors and signed tokens (`Cursors`), one `paginate_keyset` request (`Keyset`),
walks by position (`SeekWalk`) and by token over a changing table (`KeysetWalk`), the older `paginate` (`Paginate`)
and its walks in either direction (`PlainWalk`), and clients that switch sort, direction or paginator on the way
(`Switching`). `LawfulSigner` shows that the laws asked of the signer can be met. The seek clause built by the loop
is proved equivalent to the emitted order; from that follow exactly-once delivery under concurrent changes, the page
count on a fixed table, and prefix safety for a client that switches listings.

**`ledger/`** - the append-only stock ledger. Tables, triggers and statements (`Ledger`), the three interlocking
invariants over every run (`LedgerInvariants`), the inside of a hard delete, action by action (`Cascades`), the
trigger procedures as methods over mutable tables (`StockDatabase`), the orphan clean-up of 0018 (`LedgerCleanup`),
and transactions under READ COMMITTED with the per-(workspace, part) lock (`ConcurrentLedger`), where the committed
ledger is shown to be a serial one.

**`quantity/`** - decimals with a 28-digit context (`Decimals`), the trimmed canonical form and its JSON rendering
(`Quantities`), and migration 0074 with its refuse-or-lossless downgrade while other sessions write
(`QuantityMigration`).

**`sessions/`** - cookie sessions and their purge (`Sessions`), the login lockout (`Lockout`).

**`services/`** - CSV export against an RFC 4180 section 2 reader (`Csv`), the render sidecar's slot pool
(`RenderSlots`), the MCP unit of work (`UnitOfWork`), and the active-list backfill of migration 0045 (`Backfill`).

Where the source changes state in place the model does too: each such method is proved equal to a specification
function of its old state, and the lemmas are about that function.

## Where a promise needs its exact condition

- *Trim.* `_trim` is exact for values of at most 28 significant digits, but a 28-digit coefficient is not enough for
  it to succeed: the pulled-back integer must fit 28 digits too, so 1E+28 is refused (`TrimSucceedsIff`,
  `OneDigitCanBeRefused`). Likewise a price keeps its own scale only while the product fits the context
  (`WholeTimesPrice`).
- *CSV.* The round trip holds if and only if headers and rows have a cell (`CsvRoundTripIff`).
- *Render.* A request is answered once unless a socket operation fails; a failed read counts, not only a failed
  write (`AnsweredOnceIff`, `ReadFaultGetsNoResponse`).
- *Lockout.* The cap is on failure rows in the table. A successful login deletes rows and so makes room:
  `RecordedIsBounded` caps the failures recorded by ten plus what the window lost while it was open,
  `RecordedIsCappedIff` says when the two counts agree, `QuietWindowIsCapped` names the guard on events, and
  `ClearsRestartTheCount` reaches the bound.
- *Unit of work.* The watcher looks at a statement's first word. A data-changing CTE and a statement that begins
  with a comment get past it (`UnwatchedStatementIsCommitted`, `ReadOnlyChangesIff`).
- *Purge.* Invisible as long as no cutoff runs ahead of the clock, as the scheduled job's default `now` does not;
  `PurgeIsInvisibleIff` says what a caller-supplied cutoff costs.
- *Backfill.* Right for every preferred list exactly while all first occurrences of the active list lie within the
  first million (`MergeIsRightIff`), and idempotent exactly while it has at most a million distinct values
  (`BackfillIsIdempotentIff`).
- *Plain pagination.* In either direction a walk can be completed exactly when the first page does not end on a NULL
  key with more to come (`PlainWalkExistsIff`). Ascending it is then whole exactly when the table fits a page or has
  no NULL key; descending, NULLs come first and it is always whole (`PlainWalkIsWholeIff`). Its tokens carry no
  scope, so a change of direction is not refused; the client then holds the whole listing exactly when it never
  turned and the walk is whole (`ChainIsWholeIff`).
- *Workspace changes.* 0064 does not re-check references on a bare change of `workspace_id`; 0076's stage trigger
  does. References stay closed exactly when the row names nothing but itself and no other row names it
  (`BareWorkspaceChange`, `WorkspaceChangeKeepsClosedIff`).

Code and its own documentation disagree in two places; the model follows the code and the engine it relies on.
0074's docstring says the cast turns 2.5 into 2; PostgreSQL rounds halves of `numeric` away from zero, and since the
guards refuse every fraction nothing depends on it. `paginate`'s comment expects a NULL cursor key to compare as
unknown and quietly skip rows; SQLAlchemy refuses to build `sort_col > None`, so that request fails with an
untranslated error instead of serving an empty page. Ascending, NULL rows are lost with every other cursor as well.

## Assumptions

- Pagination: the signer reads back every cursor payload it signed and, for `OneTokenPerPosition`, nothing else
  verifies; ids and text survive `str`; each column's decoder undoes `str` on the values stored in it (`Suits`), as
  `fromisoformat` or the database's cast does for `paginate` (`Binds`). `dumps` is a function, `loads` is not
  assumed injective. Payload values are null, a string, or a list of nullable strings.
- Ledger: no step changes `quantity_delta`, points a reference at another non-NULL value, or changes `workspace_id`.
  Triggers of one kind fire in name order. Quantities are counted in millionths.
- Concurrent ledger: a transaction takes the (workspace, part) lock before its first insert for that part and holds
  it until it ends, as the docstring of 0013 describes; rows are inserted only.
- Lockout: checking and recording one failed login is a single step, on a clock that never goes back. The code takes
  no lock, so two concurrent failed logins can both pass the check and both be recorded.
- Sessions: freshly issued tokens differ from all earlier ones; purge cutoffs are not ahead of the clock.
- Unit of work: a tool does not commit by itself; for `ReadOnlyIsInert`, statements that change rows begin with
  INSERT, UPDATE or DELETE.
- Strings are sequences of characters.

## Model

| member | source | states |
|---|---|---|
| `SortOrder.OrderIsTotal` | backend/app/core/pagination.py:391-394 | the emitted ORDER BY (every key NULLS LAST in either direction, then `id` ascending) is irreflexive, asymmetric and decides between any two rows with distinct ids |
| `SortOrder.OrderIsTransitive` | backend/app/core/pagination.py:391-394 | and it is transitive: with the row above, a strict total order |
| `SortOrder.OrderBySorts` | backend/app/core/pagination.py:391-394 | ORDER BY yields a sequence sorted by that order, holding exactly the rows of the table |
| `SortOrder.OrderByPermutes` | backend/app/core/pagination.py:391-401 | ORDER BY neither drops nor duplicates a row |
| `SortOrder.SortedIsUnique` | backend/app/core/pagination.py:391-394 | the order leaves no freedom: two sorted sequences of the same rows are equal |
| `SortOrder.SeekThenSort` | backend/app/core/pagination.py:380-401 | sorting what the seek clause lets through is seeking in the sorted table |
| `SortOrder.ResumeDropsDelivered` | backend/app/core/pagination.py:380-401 | seeking from the k-th remaining row leaves exactly the rows after it |
| `SqlLogic.SelectIsSeek` | backend/app/core/pagination.py:380-389 | a WHERE that is TRUE exactly on the rows after a position selects exactly those rows; UNKNOWN does not pass |
| `Keyset.StrictlyAfterMeans` | backend/app/core/pagination.py:321-336 | `_strictly_after` is TRUE exactly when the expression sorts after the bind value NULLS LAST, `_same_as` exactly when both are equal or both NULL |
| `Keyset.KeysBeforeSnoc` | backend/app/core/pagination.py:382-388 | lexicographic order one expression further: decided earlier, or tied so far and decided here |
| `Keyset.SeekPredicate` | backend/app/core/pagination.py:382-389 | for any number of nullable sort expressions and either direction, the OR-of-ANDs built by the loop is TRUE under three-valued logic exactly on the rows strictly after the cursor in the ORDER BY |
| `Cursors.DecodedSeek` | backend/app/core/pagination.py:288-318 | a wrong width is a mismatch; otherwise it succeeds exactly when every non-NULL string decodes, position by position, and the error says which of the two failed |
| `Keyset.SeekRows` | backend/app/core/pagination.py:380-389 | with a cursor the query ranges over exactly the rows after the decoded position, or refuses as the decoding does |
| `Keyset.CutPage` | backend/app/core/pagination.py:401-419 | `limit + 1` rows fetched: the page is the first `limit` of what remains and a next cursor, naming the last row shown, exists exactly when more remains |
| `Keyset.PaginateKeyset` | backend/app/core/pagination.py:376-420 | the whole function: refuse a cursor of another shape or scope, seek, order, cut, mint the next cursor; equal to the specification the walk theorems are about |
| `KeysetWalk.Resume` | backend/app/core/pagination.py:376-420 | a minted token resumes exactly after the row it was minted at, whatever the table holds by then |
| `KeysetWalk.TokensFollowPositions` | backend/app/core/pagination.py:376-420 | a client that hands tokens back walks by position, the table changing freely between requests |
| `SeekWalk.WalkIsSorted` | backend/app/core/pagination.py:376-420 | everything a walk shows is in strict order and past its starting position, over any table mutations |
| `SeekWalk.StableRowIsShown` | backend/app/core/pagination.py:376-420 | a row present with the same sort values at every request of a complete walk has been shown |
| `KeysetWalk.ExactlyOnce` | backend/app/core/pagination.py:376-420 | a complete walk, over arbitrary inserts, deletes and updates of other rows (the cursor row included), delivers each row that stays present with unchanged sort values exactly once, and everything delivered is in order |
| `KeysetWalk.FixedTableWalk` | backend/app/core/pagination.py:376-420 | on a fixed table of n rows the pages concatenate to the whole sorted table, in exactly max(1, ceil(n / limit)) requests |
| `KeysetWalk.WalkExists` | backend/app/core/pagination.py:376-420 | from any position a complete walk of a fixed table exists: no token a walk mints is ever refused |
| `Cursors.PayloadRoundTrip` | backend/app/core/pagination.py:72-122 | reading a payload back gives every cursor shape: with and without `sk`, `sks` and `sc`, in every combination |
| `Cursors.CursorRoundTrip` | backend/app/core/pagination.py:72-122 | `decode_cursor(encode_cursor(c)) == c` for every cursor |
| `Cursors.AcceptedTokenIsCanonical` | backend/app/core/pagination.py:88-99 | an accepted token re-encodes to itself exactly when its payload is one `encode_cursor` writes |
| `Cursors.OneTokenPerPosition` | backend/app/core/pagination.py:88-99 | with an unforgeable signer accepted tokens re-encode to themselves, so two tokens never name one seek position |
| `LawfulSigner.LawfulSignerExists` | backend/app/core/pagination.py:68-99 | the laws asked of the signer, of ids and of `str`, unforgeability included, hold together of a concrete one |
| `KeysetWalk.WrongScopeIsRefused` | backend/app/core/pagination.py:281-285 | the scope half of the check: a keyset token minted under one scope is refused with a mismatch under any other, whatever the table |
| `Switching.KeysetRefusesColumnToken` | backend/app/core/pagination.py:280-285 | the shape half: `paginate_keyset` refuses every token `paginate` mints |
| `Switching.ColumnRefusesKeysetToken` | backend/app/core/pagination.py:280-285 | and `paginate` refuses every token `paginate_keyset` mints, scoped or not |
| `Switching.AcceptedChainStays` | backend/app/core/pagination.py:253-285 | a chain of accepted requests, each free to name either paginator, never left its first paginator and, with distinct scopes for distinct keyset listings, never its first listing |
| `Switching.AcceptedPagesArePrefix` | backend/app/core/pagination.py:253-285 | so a chain begun with the keyset paginator is one walk, and on a fixed table what the client holds is always a prefix of one listing's order |
| `Switching.DirectionIsNotChecked` | backend/app/core/pagination.py:157-201 | `paginate` tokens carry no scope: turned round, they are served whatever the table |
| `Switching.ChainIsWholeIff` | backend/app/core/pagination.py:156-230 | a complete chain over one column of a fixed table, at any limits and turned at will, delivers the listing it began if and only if it never turns and that walk is whole (descending, one page, or no NULL) |
| `Switching.TailIsWholeIff` | backend/app/core/pagination.py:156-230 | from a row with a value on: the chain delivers what was left if and only if it never turns |
| `Switching.TurningRoundLosesRows` | backend/app/core/pagination.py:157-230 | the smallest loss: two rows, direction turned after the first page; every request is accepted, the walk ends, the second row was never shown |
| `Paginate.SeekWhereMeans` | backend/app/core/pagination.py:186-201 | the two-leg clause of `paginate` passes exactly the non-NULL rows on the right side of (value, id); a NULL bind passes none |
| `Paginate.PaginateColumn` | backend/app/core/pagination.py:156-230 | `paginate`: refuse, bind the sort key (date columns through `fromisoformat`, everything else as the database reads the string), seek, order (descending turns ids and NULLs round as well), cut, mint; a cursor without a sort key, with a list, or with a string the column cannot read is an untranslated fault |
| `PlainWalk.SamePages` | backend/app/core/pagination.py:156-230 | on a NOT NULL column, ascending, every `paginate_keyset` walk over any changing table and any limits is matched page by page by `paginate`, ending at the same place |
| `PlainWalk.NoNullsOnceSeeking` | backend/app/core/pagination.py:186-201 | past its first page, in either direction and over any changing table, `paginate` never shows a NULL row |
| `PlainWalk.ResumePlain` | backend/app/core/pagination.py:186-208 | in either direction, seeking past a row with a value leaves the rows behind it in order, less those without one |
| `PlainWalk.WalkDeliversValues` | backend/app/core/pagination.py:156-230 | a complete walk of a fixed table, in either direction and at any limits, delivers its first page and then every row behind it that has a sort value |
| `Paginate.NullTokenFails` | backend/app/core/pagination.py:169-201 | a token minted at a NULL row makes every later request fail, whatever the table holds by then |
| `PlainWalk.PlainWalkExistsIff` | backend/app/core/pagination.py:163-208 | in either direction a complete walk of a fixed table exists if and only if the first page does not end on a NULL row with more to come |
| `PlainWalk.PlainWalkIsWholeIff` | backend/app/core/pagination.py:163-208 | a complete walk delivers the whole listing if and only if it descends, fits one page, or has no NULL in the sort column |
| `Paginate.NullRowIsLost` | backend/app/core/pagination.py:163-194 | the concrete loss: two rows, the second NULL; after the first `paginate` has nothing left to show and `paginate_keyset` has the second |
| `Ledger.BalanceIsBucketSum` | backend/alembic/versions/0013_stock_nonneg_trigger.py:49-57 | for a row that names a part the trigger re-aggregates exactly that row's (workspace, part, lot, storage, status) bucket, NULL lots and storages matching each other |
| `LedgerInvariants.CheckMeans` | backend/alembic/versions/0064_inline_workspace_isolation_sqlstate.py:42-228 | the column-by-column reference check passes exactly when every due, non-NULL reference is found in the row's workspace |
| `LedgerInvariants.BeforeInsertMeans` | backend/alembic/versions/0077_unit_match_trigger.py:121-146 | a row past its BEFORE triggers names a part in its own workspace, carries that part's unit and has no dangling reference: what the unit trigger passes over in silence the workspace trigger refuses |
| `LedgerInvariants.AppendKeepsNonNegative` | backend/alembic/versions/0013_stock_nonneg_trigger.py:49-68 | re-aggregating only the tuples of the new rows keeps every bucket non-negative |
| `LedgerInvariants.InsertKeeps` | backend/alembic/versions/0013_stock_nonneg_trigger.py:49-68 | an accepted INSERT appends its rows and keeps buckets, references and units together |
| `LedgerInvariants.DetachMergesBuckets` | backend/alembic/versions/0056_stock_entries_part_set_null.py:222-235 | what SET NULL does to sums: the bucket without the deleted place gains what the bucket with it held, that one empties, no other changes |
| `LedgerInvariants.DeleteKeepsNonNegative` | backend/alembic/versions/0001_initial.py:370-374 | no hard delete makes a bucket negative although the trigger never looks at the merged ones |
| `LedgerInvariants.DeleteKeepsReferences` | backend/alembic/versions/0018_db_schema_cleanup.py:119-148 | after a hard delete every remaining reference still resolves in its row's workspace and units still agree |
| `LedgerInvariants.DeletePreservesHistory` | backend/alembic/versions/0058_lots_part_set_null_trigger_update_gates.py:545-557 | a hard delete keeps every ledger row with its quantity, status, unit and workspace, keeps every other lot, and NULLs exactly the references to what it deleted |
| `LedgerInvariants.DeleteConservesQuantity` | backend/alembic/versions/0056_stock_entries_part_set_null.py:222-235 | no hard delete changes the total quantity of any (workspace, status) |
| `LedgerInvariants.ChangePartUnitKeeps` | backend/alembic/versions/0077_unit_match_trigger.py:168-194 | the part-unit freeze, which probes only the part's own workspace, keeps units agreeing: no other workspace's row can name the part |
| `LedgerInvariants.EveryRunIsGood` | backend/alembic/versions/0077_unit_match_trigger.py:116-194 | over every run of guarded inserts, hard deletes, unit changes and new objects: buckets non-negative, references closed in their workspace, ledger rows in their part's current unit |
| `LedgerInvariants.PartSumsAreSingleUnit` | backend/alembic/versions/0077_unit_match_trigger.py:75-83 | so any two rows of one part share one unit and one workspace |
| `Cascades.SetNullIsNeverRefused` | backend/alembic/versions/0064_inline_workspace_isolation_sqlstate.py:138-228 | the gated UPDATE triggers pass every SET NULL, whatever else of the row dangles at that moment |
| `Cascades.FullRecheckRefusesIff` | backend/alembic/versions/0058_lots_part_set_null_trigger_update_gates.py:225-325 | the full re-check refuses a SET NULL exactly when some other reference of the row does not resolve |
| `Cascades.FullRecheckCanRefuseADelete` | backend/alembic/versions/0058_lots_part_set_null_trigger_update_gates.py:225-325 | a concrete closed database and order deletion that the full re-check rejects and the gated branch does not |
| `Cascades.CascadeIsDelete` | backend/alembic/versions/0076_build_stages.py:109-130 | in whatever order the engine removes rows and NULLs references, a finished delete ends in one and the same state |
| `Cascades.BareWorkspaceChange` | backend/alembic/versions/0064_inline_workspace_isolation_sqlstate.py:138-228 | a bare workspace change passes the reference triggers of 0064 unseen; the stage trigger of 0076 checks it |
| `Cascades.WorkspaceChangeKeepsClosedIff` | backend/alembic/versions/0064_inline_workspace_isolation_sqlstate.py:138-228 | hence the assumption that no step changes `workspace_id`: such a change keeps references closed if and only if the row names nothing but possibly itself and no other row names it |
| `StockDatabase.Database.CheckWorkspaceFks` | backend/alembic/versions/0064_inline_workspace_isolation_sqlstate.py:38-230 | the trigger procedure over the tables, INSERT and UPDATE branches, first failing column reported |
| `StockDatabase.Database.CheckBuildStage` | backend/alembic/versions/0076_build_stages.py:110-129 | the stage trigger: due on INSERT, on a changed stage, on a changed workspace |
| `StockDatabase.Database.CheckUnitMatch` | backend/alembic/versions/0077_unit_match_trigger.py:117-149 | the unit trigger: silent on a NULL or unknown part, otherwise units must be equal |
| `StockDatabase.Database.CheckNonNegative` | backend/alembic/versions/0013_stock_nonneg_trigger.py:44-70 | the loop that re-aggregates refuses exactly when the tuple's balance is negative |
| `StockDatabase.Database.InsertRows` | backend/alembic/versions/0013_stock_nonneg_trigger.py:74-83 | a multi-row INSERT: row triggers one by one, balances afterwards over all new rows, everything undone on the first refusal |
| `StockDatabase.Database.UpdatePartUnit` | backend/alembic/versions/0077_unit_match_trigger.py:169-192 | a unit change goes through exactly when it changes nothing or the part has no ledger row, and changes nothing else |
| `LedgerInvariants.HistoryIsFixed` | backend/alembic/versions/0077_unit_match_trigger.py:63-68 | the ledger is append-only: over every run a row once written keeps its place, id, workspace, quantity, status and unit, and its references are only ever set to NULL |
| `StockDatabase.Database.HardDelete` | backend/alembic/versions/0056_stock_entries_part_set_null.py:222-235 | a delete with its cascades and one trigger-checked SET NULL update after another ends in the state the delete lemmas are about, no update refused |
| `StockDatabase.Database.DetachOne` | backend/alembic/versions/0064_inline_workspace_isolation_sqlstate.py:138-228 | the SET NULL updates of one row, in any order of its columns, remove exactly the doomed references |
| `ConcurrentLedger.BalanceIgnores` | backend/alembic/versions/0013_stock_nonneg_trigger.py:7-13 | rows of other (workspace, part) pairs do not move a tuple's balance |
| `ConcurrentLedger.CommitStep` | backend/alembic/versions/0013_stock_nonneg_trigger.py:7-13 | a commit keeps non-negativity and leaves every other live transaction's trigger verdicts valid |
| `ConcurrentLedger.EveryInterleaving` | backend/alembic/versions/0013_stock_nonneg_trigger.py:7-13 | in every interleaving of transactions holding the (workspace, part) lock until they end, every committed bucket is non-negative, and the committed ledger is the serial one in commit order with every statement passing its trigger |
| `ConcurrentLedger.TriggerAloneIsNotEnough` | backend/alembic/versions/0013_stock_nonneg_trigger.py:7-13 | without the lock two inserts that each pass the trigger can overdraw a bucket together |
| `LedgerCleanup.ForeignKeysCanBeAdded` | backend/alembic/versions/0018_db_schema_cleanup.py:93-148 | after the pre-flight updates the five foreign keys of 0018 hold, whatever the tables held before |
| `LedgerCleanup.CleanUpChangesNothingIff` | backend/alembic/versions/0018_db_schema_cleanup.py:93-117 | the pre-flight leaves a database alone if and only if its references already resolve |
| `LedgerCleanup.ClearedMeans` | backend/alembic/versions/0018_db_schema_cleanup.py:93-117 | per row it NULLs exactly the dangling references among the listed columns and no other column |
| `LedgerCleanup.CleanUpKeepsBuckets` | backend/alembic/versions/0018_db_schema_cleanup.py:93-107 | no bucket sum moves |
| `LedgerCleanup.StockTables.NullOrphans` | backend/alembic/versions/0018_db_schema_cleanup.py:93-117 | three UPDATEs over the ledger and two over the lots, one column after another, end in that state |
| `Decimals.FixFacts` | backend/app/domain/_quantity.py:97 | rounding to the 28-digit context keeps the value exactly when at most 28 digits are significant, and never makes a non-zero value zero |
| `Decimals.StripFacts` | backend/app/domain/_quantity.py:97 | moving trailing zeros into the exponent: coefficient = stripped times a power of ten, stripped ends in no zero |
| `Quantities.TrimSucceedsIff` | backend/app/domain/_quantity.py:87-100 | `_trim` succeeds exactly on finite values that, rounded to the context, stay below ten to the 28th; its result has no positive exponent and no padding zero |
| `Quantities.OneDigitCanBeRefused` | backend/app/domain/_quantity.py:98-99 | 28-digit coefficients are not enough: 1E+28 is refused, 1E+27 is not |
| `Quantities.TrimKeepsValueIff` | backend/app/domain/_quantity.py:87-100 | the exact value survives if and only if at most 28 digits are significant |
| `Quantities.TrimIdempotent` | backend/app/domain/_quantity.py:87-100 | trimming twice is trimming once |
| `Quantities.TrimIsCanonical` | backend/app/domain/_quantity.py:87-100 | two such values trim to the same (coefficient, exponent) if and only if they are numerically equal |
| `Quantities.CoercionIsCanonical` | backend/app/domain/_quantity.py:58-84 | NULL, Decimal, int or text: within 28 significant digits equal numbers coerce to one Decimal and different ones do not |
| `Quantities.PaddingIsDropped` | backend/app/domain/_quantity.py:68-76 | an integer padded with zeros at the column's scale coerces like the integer itself |
| `Quantities.TrimmedWhole` | backend/app/domain/_quantity.py:68-76 | a trimmed value has exponent zero exactly when it is whole |
| `Quantities.WholeTimesPrice` | backend/app/domain/_quantity.py:68-76 | a whole quantity times a price keeps the price's own exponent exactly when the product fits the 28-digit context |
| `Quantities.QuantityOutIsIntIff` | backend/app/domain/_quantity.py:113-119 | an int comes out exactly for whole values and equals the value; a fractional value is passed on unrounded |
| `Quantities.OutAfterTrim` | backend/app/domain/_quantity.py:103-119 | trimming first never changes what comes out for a whole value |
| `QuantityMigration.NarrowIsExactIff` | backend/alembic/versions/0074_uom_widen_quantities.py:252-285 | a cell passes both guards exactly when narrowing it to int4 and widening it back returns it; NaN is caught by the range guard |
| `QuantityMigration.WidenFits` | backend/alembic/versions/0074_uom_widen_quantities.py:183-188 | every int4 fits NUMERIC(18, 6) and narrows back to itself |
| `QuantityMigration.RefusesOrLosesNothing` | backend/alembic/versions/0074_uom_widen_quantities.py:223-292 | the downgrade goes through if and only if the database is the upgrade of some integer-era one, and then it produces that one: every cell equal, every unit `pcs` |
| `QuantityMigration.DowngradeAfterUpgrade` | backend/alembic/versions/0074_uom_widen_quantities.py:183-292 | upgrade never overflows and downgrade after upgrade is the identity |
| `QuantityMigration.Migration.RunUpgrade` | backend/alembic/versions/0074_uom_widen_quantities.py:162-188 | unit columns default to `pcs` and every column is widened once, no narrow one left |
| `QuantityMigration.Migration.LockTables` | backend/alembic/versions/0074_uom_widen_quantities.py:228-233 | once the loop is done every table is locked, other sessions writing until then |
| `QuantityMigration.Migration.CheckGuards` | backend/alembic/versions/0074_uom_widen_quantities.py:235-285 | the guard loops report the first refusal in order - units, then per column fractions before range - about a database nobody else can change meanwhile |
| `QuantityMigration.Migration.NarrowColumns` | backend/alembic/versions/0074_uom_widen_quantities.py:287-289 | every column is narrowed once and none is left wide |
| `QuantityMigration.Migration.RunDowngrade` | backend/alembic/versions/0074_uom_widen_quantities.py:223-292 | a refusal leaves the locked database untouched; otherwise exactly that database has been narrowed |
| `Sessions.PurgeSimulates` | backend/app/core/auth.py:365-378 | a purge whose cutoff is not ahead of the clock removes only sessions no later request could be accepted on |
| `Sessions.PurgeIsInvisible` | backend/app/core/auth.py:350-379 | in any run of creation, authentication, revocation, user removal and clock advance, purges anywhere leave every accept/reject decision as without them |
| `Sessions.PurgeIsInvisibleIff` | backend/app/core/auth.py:350-379 | for a cutoff given by the caller: the next acceptance survives exactly when the cutoff is past neither the session's expiry nor its idle limit |
| `Sessions.AcceptedIff` | backend/app/core/deps.py:281-321 | a request is accepted exactly when its token was issued and not revoked since, its lifetime has not run out and the gap since its last accepted use is within the idle window - computed from the history alone |
| `Sessions.TableTracksHistory` | backend/app/core/deps.py:281-321 | the session table agrees with that history up to sessions already dead |
| `Sessions.SessionStore.CreateSessionRow` | backend/app/core/auth.py:219-227 | a new row, unless the key exists or the user does not |
| `Sessions.SessionStore.GetCurrentUser` | backend/app/core/deps.py:281-325 | the cookie path in code order: unknown, expired, idle (row dropped), user missing, accepted (last use bumped) |
| `Sessions.SessionStore.RevokeSession` | backend/app/core/auth.py:230-241 | exactly the named session goes |
| `Sessions.SessionStore.RevokeAllUserSessions` | backend/app/core/auth.py:244-254 | exactly the user's sessions go, and the count returned is how many |
| `Sessions.SessionStore.PurgeExpiredSessions` | backend/app/core/auth.py:365-379 | exactly the rows past expiry or idle limit at the cutoff go, and the count returned is how many |
| `Lockout.NoWindowExceedsCap` | backend/app/core/auth.py:265-347 | in no run does any closed 15-minute window of the table hold more than ten failures of one email hash, or of one user, whatever is cleared or removed in between |
| `Lockout.RecordKeepsCap` | backend/app/core/auth.py:279-335 | a failure recorded when the check said unlocked keeps every window within ten |
| `Lockout.RecordedIsAccountedFor` | backend/app/core/auth.py:279-347 | over every run, for every email hash or user and every closed window: failures recorded = rows still in the table + rows a successful login deleted + rows that lost their user; the last is nothing for a hash |
| `Lockout.RecordedIsCappedIff` | backend/app/core/auth.py:279-347 | the recorded failures are the capped ones in the table if and only if no successful login deleted one of that window and, for a user, no removal of the user detached one |
| `Lockout.RecordedIsBounded` | backend/app/core/auth.py:301-347 | in every run at most ten failures are recorded beyond those the window lost while it was open |
| `Lockout.QuietWindowIsCapped` | backend/app/core/auth.py:301-347 | hence at most ten in a window inside which the account saw no successful login and was not removed |
| `Lockout.ClearsRestartTheCount` | backend/app/core/auth.py:338-347 | the bound is reached: with one clear in between, twenty failures of one account are recorded at one instant |
| `Lockout.LoginFailures.CheckLoginLockout` | backend/app/core/auth.py:301-335 | the count over the table is at least ten of the trailing window, by user or by hash |
| `Lockout.LoginFailures.RecordLoginFailure` | backend/app/core/auth.py:279-298 | appends one row with the user, if any, the hash and the time |
| `Lockout.LoginFailures.FailLogin` | backend/app/api/routes/auth.py:664-692 | a failed login: checked first, recorded only when not locked |
| `Lockout.LoginFailures.ClearLoginFailures` | backend/app/core/auth.py:338-347 | a known user's rows go; rows under the bare hash stay; an unknown email changes nothing |
| `Csv.QuotedReadsBack` | web/src/components/DataTable.tsx:36 | doubled quotes read back to the original text, whatever it contains |
| `Csv.CellReadsBack` | web/src/components/DataTable.tsx:25-37 | one printed cell reads back as its neutralised text and leaves the rest |
| `Csv.CsvRoundTripIff` | web/src/components/DataTable.tsx:39-44 | after the byte-order mark the RFC 4180 section 2 reader returns exactly the headers and rows, each cell neutralised, if and only if the headers and every row have at least one cell |
| `Csv.NeutraliseFacts` | web/src/components/DataTable.tsx:33-35 | neutralisation is idempotent, its result never starts with a leader, and at most one leading quote was added |
| `Csv.NeutraliseMergesIff` | web/src/components/DataTable.tsx:33-35 | two cells become alike only when equal, or when one is the other already quoted by hand |
| `Csv.NoCellStartsAFormula` | web/src/components/DataTable.tsx:23-44 | no cell read from an export starts with a formula leader |
| `RenderSlots.PoolIsBounded` | render/server.py:78-80 | in every interleaving of however many requests free slots plus holders is the limit, renders never exceed it, and no release over-releases |
| `RenderSlots.AnsweredOnceIff` | render/server.py:200-234 | a finished request got exactly one response if its actions hold no failed socket read or write and no renderer torn down, and none if they do |
| `RenderSlots.ReadFaultGetsNoResponse` | render/server.py:216 | a body that fails to arrive is such a case with no write fault at all |
| `RenderSlots.EachCanFinish` | render/server.py:200-234 | from any state, a full pool and any other requests included, each request can be brought to its end by at most seven steps of its own, without a step of any other |
| `RenderSlots.Sidecar.DoPost` | render/server.py:200-234 | one request alone: the slot is back whatever happens and exactly the due status was sent |
| `UnitOfWork.UnseenIsUnchanged` | backend/app/mcp/principal.py:149-156 | until the watcher has seen a statement the database is unchanged, when changing statements begin with its verbs |
| `UnitOfWork.ReadOnlyIsInert` | backend/app/mcp/principal.py:171-239 | a read-only unit of work leaves the database as found, on every statement trace and every outcome |
| `UnitOfWork.ReadOnlyChangesIff` | backend/app/mcp/principal.py:171-239 | with no assumption on statements: a read-only unit changes the database exactly when its body runs through to a commit, leaves nothing staged, emitted no statement beginning with a verb, and its statements add up to a change |
| `UnitOfWork.BodyIsTrace` | backend/app/mcp/principal.py:149-168 | a body that runs through leaves the transaction its operations describe: effects in emission order, what still waits, and the number of statements the watcher recognised |
| `UnitOfWork.NothingIsLost` | backend/app/mcp/principal.py:178-181 | what was emitted and what waits for the commit are the body's statements, each exactly once |
| `UnitOfWork.UnwatchedStatementIsCommitted` | backend/app/mcp/principal.py:149-156 | a data-changing CTE, or DML behind a comment, is not seen and is committed |
| `UnitOfWork.WritesAreAllOrNothing` | backend/app/mcp/principal.py:224-235 | with `writes`: the caller is told it committed exactly when the body ran through and COMMIT succeeded, and then every statement of the body took effect exactly once; otherwise the database is as before |
| `UnitOfWork.Session.UnitOfWork` | backend/app/mcp/principal.py:208-239 | the try/except/finally around a tool body, outcome and database as specified; on every path the session is closed and the listener detached |
| `Backfill.DedupFacts` | backend/alembic/versions/0045_backfill_active_distributors.py:25-49 | first-occurrence de-duplication holds the same values, in the order they first occur |
| `Backfill.AnswerIsDedup` | backend/alembic/versions/0045_backfill_active_distributors.py:25-49 | with first occurrences of the active list inside the million the query's answer is the de-duplication of active followed by preferred |
| `Backfill.MergeIsRightIff` | backend/alembic/versions/0045_backfill_active_distributors.py:25-49 | it is that for every preferred list if and only if every active value first occurs within the million ordinals - so whenever the list has at most 1000000 elements |
| `Backfill.MergeKeepsActiveFirst` | backend/alembic/versions/0045_backfill_active_distributors.py:25-49 | the merged list starts with the active values in their order and loses no value of either list |
| `Backfill.BackfillIsIdempotentIff` | backend/alembic/versions/0045_backfill_active_distributors.py:21-80 | the three updates applied twice are the three updates applied once, for every preferred list, if and only if the active list has at most 1000000 distinct values |
| `Backfill.Merge` | backend/alembic/versions/0045_backfill_active_distributors.py:25-49 | grouping and ordering by first ordinal yields an answer the query may give |
| `Backfill.Workspaces.BackfillActiveLists` | backend/alembic/versions/0045_backfill_active_distributors.py:21-80 | the three UPDATE passes rewrite every row as specified: NULL preferred lists and NULL codes leave their column alone |

## Left out

- Part substitutes, meta members and CAD keys: their workspace triggers have the shape of the one modelled.
- Build stage lines and the workspace triggers of lots, orders and builds: objects other than stages enter without a workspace check.
- Deleting a workspace, which cascades to its ledger rows, and deleting ledger rows themselves.
- Hard deletes and unit changes racing with inserts: the triggers do not claim that isolation.
- Writers outside the lock protocol: `TriggerAloneIsNotEnough` shows what they can do.
- The trigger procedures' one IF block per column: modelled as a loop over the columns in the same order, because the blocks differ only in the column.
- The order in which the engine applies cascades and SET NULL: `HardDelete` picks one, `CascadeIsDelete` covers all.
- Database collations: text compares character by character; the walk theorems use only that it is a strict total order.
- NaN and infinities as sort values, and binary-float sort columns.
- Signatures, hashing, base64 and JSON text: ideal functions.
- Decimal contexts other than the default precision and rounding, their exponent limits, and signalling NaN.
- The conversion to a binary float in `quantity_out`: the value is passed on as an exact decimal.
- Lock and statement timeouts of 0074, and the metadata side of adding and dropping columns.
- Downgrades of 0056, 0058, 0064, 0076 and 0077, and column-only or index-only migrations.
- Token authentication, role gates, CSRF handling and the password-reset path.
- NULL `expires_at` or `last_used_at` in a session row: the columns are always written.
- The IP address of a login failure, and the failure of the commit that stores it.
- `bind` and the context variable of the MCP principal; nested transactions and savepoints.
- Socket timing in the sidecar, the temporary files, and the rendering itself.
- JSON elements other than strings and null in the active lists, where `?` and text extraction differ.
- React components, selection pruning and the rest of `DataTable.tsx`.
- Csv.CsvRoundTripIff: rows are strings, as `buildCsv` takes them; null, numbers and booleans are covered by `EscapeCell` alone.
