# Rin-DA-Refresher, modelled in Dafny

Rin-DA-Refresher keeps one DeviantArt OAuth 2.0 credential alive. A
PostgreSQL table `rin_dar_data` holds rows `(uuid, access_token,
refresh_token)`. Every 30 seconds a loop reads the table and takes the first
row. It sends that row's refresh token to the token endpoint as a
refresh-token grant (section 6 of RFC 6749). Unless the endpoint answers
HTTP 400, the loop writes the returned token pair back into that row.

The model has four modules:

- `Models` (models.dfy) covers `src/rin_dar_utils/models.py`. It has the row
  datatype `DARData`, the `String(255)` column bound, the row's iterator
  `Iter`, and Python's `dict()` over `(name, value)` pairs (`Dict`).
  `main.py` uses `dict(row)` to read the key of a row.
- `DarUtils` (dar_utils.dfy) covers `src/rin_dar_utils/dar_utils.py`. It
  states each SQL statement as a function on a table value, which is a
  sequence of rows. The table's order stands in for the order in which the
  unordered `SELECT` returns rows. An insert appends a row, and an update
  keeps each row at its position. The class `RinDARUtils` holds the table in
  its `rows` field. Its methods `AddToDARData` and `UpdateDARData` change the
  table. Its functions `GetAllDARData`, `GetDARDataViaUUID` and
  `GetRefreshTokenViaUUID` read it. The database reports three write failures,
  and the model returns each as a value: a value holding the character
  U+0000, which the server's encoding cannot store (`InvalidEncoding`), a
  value longer than 255 characters (`StringTooLong`), and a duplicate
  primary key (`UniqueViolation`).
- `Refresher` (refresher.dfy) covers `src/refresher/main.py`. `CycleStep` is
  one pass of the `while True` body as a function. `Cycle` is the same pass
  as a method against the store, proved equal to `CycleStep`. `RunCycles` and
  `MainLoop` are the loop, run until a pass crashes. The HTTP exchange is an
  input: the endpoint is unreachable, or it gives a status and a body. The
  body is either unparsable or a JSON object with string values.
- `Wrappers` (wrappers.dfy) holds `Option`.

A pass ends in one of four ways:

- `NoItems`: the `NoItemsError` was caught, which the source logs as a warning.
- `Rejected`: the endpoint answered 400, which the source logs as a warning.
- `Updated`: the new tokens were written, which the source logs as info.
- `Crashed(cause)`: an exception escaped and the loop stopped.

The model follows what the code does, not an idealised refresh client:

- A non-2xx answer is not treated as a transient failure that leaves the
  store alone. The code writes the tokens on every status except 400, so a
  500 answer that carries both tokens is stored. A non-400 answer without
  both tokens raises `KeyError` and ends the loop.
- Unparsable bodies and storage failures are not logged and retried. Only
  `NoItemsError` is caught (main.py:70), so each of these ends the loop.
- The body is parsed (main.py:63) before the status is checked
  (main.py:64). An unparsable 400 body therefore ends the loop too.

## Model

| member | source | states |
|---|---|---|
| Models.Iter | src/rin_dar_utils/models.py:13-16 | iterating a row yields exactly three pairs, named `uuid`, `access_token`, `refresh_token` in that order |
| Models.DictAppend | src/refresher/main.py:48-50 | `dict()` over one more pair is the previous dictionary with that pair's key set to its value |
| Models.DictLookup | src/refresher/main.py:48-50 | in `dict(pairs)` every name is a key and maps to the value of its last occurrence |
| Models.DictKeyNamed | src/refresher/main.py:48-50 | every key of `dict(pairs)` is a name that occurs in `pairs` |
| Models.DictOfRow | src/rin_dar_utils/models.py:13-16 | `dict(row)` has exactly the three column names as keys and gives back each field, e.g. `dict(row)['uuid'] == row.uuid` |
| DarUtils.SelectWhereUuid | src/rin_dar_utils/dar_utils.py:82-84 | the rows a key-select returns are exactly the table's rows with that key |
| DarUtils.SelectAbsent | src/rin_dar_utils/dar_utils.py:82-84 | a key-select for a key no row has returns the empty list |
| DarUtils.SelectUnique | src/rin_dar_utils/models.py:9 | with `uuid` as primary key, selecting the key of a row returns that row and nothing else |
| DarUtils.SelectAtMostOne | src/rin_dar_utils/dar_utils.py:82-84 | on a keyed table a key-select returns at most one row, and none exactly when the key is absent |
| DarUtils.InsertKeepsValid | src/rin_dar_utils/dar_utils.py:42-45 | an accepted insert keeps the keys distinct and every value within 255 characters and free of U+0000 |
| DarUtils.AddThenGet | src/rin_dar_utils/dar_utils.py:30-45 | after an accepted insert of `(u, a, r)`, selecting `u` returns exactly one row, `(u, a, r)` |
| DarUtils.UpdateWhereUuid | src/rin_dar_utils/dar_utils.py:122-124 | an update keeps the number of rows and every key, leaves rows with other keys alone, and sets both tokens of the matching row together |
| DarUtils.UpdateAbsentIsNoop | src/rin_dar_utils/dar_utils.py:122-124 | updating a key that is absent changes no row |
| DarUtils.UpdateIdempotent | src/rin_dar_utils/dar_utils.py:122 | running the same update twice leaves the table as running it once |
| DarUtils.UpdateKeepsValid | src/rin_dar_utils/dar_utils.py:122-124 | an accepted update keeps the keys distinct and every value within 255 characters and free of U+0000 |
| DarUtils.UpdateThenGet | src/rin_dar_utils/dar_utils.py:109-124 | after updating present key `u` to `(a2, r2)`, selecting `u` returns exactly `(u, a2, r2)` |
| DarUtils.RinDARUtils.AddToDARData | src/rin_dar_utils/dar_utils.py:30-45 | a value holding U+0000, a value over 255 characters, or a key already present is refused, in that order, and leaves the table unchanged; otherwise the row is added and the table stays keyed |
| DarUtils.RinDARUtils.GetAllDARData | src/rin_dar_utils/dar_utils.py:49-64 | the rows returned are exactly the stored rows, as a multiset, with distinct keys and values within their columns |
| DarUtils.RinDARUtils.GetDARDataViaUUID | src/rin_dar_utils/dar_utils.py:68-84 | the result is the full read filtered to key `u`: at most one row, and empty exactly when `u` is absent |
| DarUtils.RinDARUtils.GetRefreshTokenViaUUID | src/rin_dar_utils/dar_utils.py:88-104 | the result holds at most one value, is empty exactly when `u` is absent, and otherwise is `[refresh token of row u]` |
| DarUtils.RinDARUtils.UpdateDARData | src/rin_dar_utils/dar_utils.py:109-124 | both tokens of row `u` are replaced in one statement; a bound value holding U+0000, or a new token over 255 characters, is refused whether or not a row matches and leaves the table as it was; the table stays keyed |
| DarUtils.StoreUpdateRead | src/rin_dar_utils/dar_utils.py:109-124 | storing `("u1","a1","r1")`, updating it to `("a2","r2")` and reading `u1` yields exactly `("u1","a2","r2")` |
| Refresher.GrantParamsExactlyFour | src/refresher/main.py:53-58 | the grant has exactly four parameters: `client_id`, `client_secret`, `grant_type` = `refresh_token`, and `refresh_token` |
| Refresher.Candidate | src/refresher/main.py:50 | the candidate read through `dict(item)['uuid']` is the key of the first row returned |
| Refresher.CycleStep | src/refresher/main.py:42-72 | a pass keeps the table keyed; on an empty table it sends nothing and changes nothing; it sends a request exactly when the table has rows; only an `Updated` pass changes the table |
| Refresher.Cycle | src/refresher/main.py:42-72 | one pass against the store returns the outcome and request of `CycleStep` and leaves the store as `CycleStep` says |
| Refresher.CycleRequestsFirstRowToken | src/refresher/main.py:50-57 | on a table with rows, the request goes to the token endpoint with the first row's stored refresh token |
| Refresher.CycleRejectedIff | src/refresher/main.py:64-66 | on a table with rows, a pass is `Rejected` exactly when the answer parsed and its status is 400 |
| Refresher.CycleNon400Updates | src/refresher/main.py:67-68 | any status other than 400 with both tokens in the body, each within 255 characters and free of U+0000, is written (a 500 included) |
| Refresher.CycleUpdatesOnlyCandidate | src/refresher/main.py:67-68 | a writing pass had a non-400 parsed answer with both keys; it replaces both tokens of the first row from the body and leaves every other row unchanged |
| Refresher.CycleCrashesIff | src/refresher/main.py:59-70 | on a table with rows, a pass escapes the loop exactly when the endpoint is unreachable, the body does not parse, or a non-400 body lacks a token or has one the database refuses (too long, or holding U+0000) |
| Refresher.RejectedThenSameRequest | src/refresher/main.py:64-66 | after a 400 the next pass sends the identical request, with the same refresh token |
| Refresher.UpdatedThenNewToken | src/refresher/main.py:68 | after a write, the next pass spends the refresh token the endpoint just returned, given that the write does not change which row is read first |
| Refresher.RunCycles | src/refresher/main.py:41-72 | the loop has no normal exit: no pass before the last crashes, and it stops early only on a crash; the table stays keyed |
| Refresher.MainLoop | src/refresher/main.py:39-72 | running the loop against the store gives the outcomes, requests and final table of `RunCycles` |
| Refresher.EmptyTableStaysQuiet | src/refresher/main.py:44-72 | on an empty table every pass ends in the caught `NoItemsError`, no request is ever sent and the table stays empty |
| Refresher.RejectionsRepeatRequest | src/refresher/main.py:64-66 | while every answer is a parsed 400, the table never changes and every pass re-sends the first row's same refresh token |
| Refresher.ScenarioEmptyStore | src/refresher/main.py:44-46 | on an empty store a pass ends in `NoItems`, sends nothing, and the store stays empty |
| Refresher.ScenarioRotation | src/refresher/main.py:50-69 | store `u1` with `rOld`; the request carries `rOld`, and a 200 answer with `aNew`, `rNew` leaves exactly `("u1","aNew","rNew")` |
| Refresher.ScenarioRejected | src/refresher/main.py:64-66 | same store with a 400 answer: the pass is `Rejected`, the store is unchanged, and the next request again carries `rOld` |

## Left out

- `initAllDARTables` and `scripts/postgres-init.py`: these create the schema through SQLAlchemy and are not part of this model. The table starts empty (`RinDARUtils` constructor) or as any keyed table.
- Engine and session creation, `commit` and the repeated event-loop-policy lines: these are runtime setup. Every statement is modelled as an atomic step on the table.
- Connectivity failures of the database are not modelled. In the source they would raise and end the loop, like a `StoreFailed` crash.
- The aiohttp transport, `simdjson` and `orjson` are not modelled. The exchange is an input `Response`.
- Bodies that parse to JSON other than an object are not modelled, such as `[]` or `null`. On a non-400 status, indexing such a body at main.py:68 raises `TypeError` and ends the loop. Token values in the body that are not strings are not modelled either.
- PostgreSQL's truncation of trailing spaces is not modelled. A `varchar(255)` column accepts a longer value when every character past the 255th is a space, and stores it cut to 255. The model reports `StringTooLong` for such a value (`FitsColumns`, `InsertResult`, `UpdateResult`), and so a pass that receives one ends in `Crashed(StoreFailed(StringTooLong))` instead of storing the cut value.
- The effect of a write on the read order is assumed, not taken from the source. The `SELECT` has no `ORDER BY`, and PostgreSQL writes an updated row as a new tuple version. On a table with two or more rows, a later pass may therefore read a different row first. The model keeps an updated row at its position, so `Refresher.UpdatedThenNewToken` and the traces of `RunCycles` and `MainLoop` hold only under that assumption. With a single row, which is the deployment the program serves, the assumption is not needed.
- `asyncio.sleep(30)`, async/await and the `__main__` task bookkeeping are not modelled. `MainLoop` runs one pass per supplied response instead of forever.
- Environment variables, the connection URI and the logging configuration are not modelled. The outcome tag stands for the log severity, and `clientId`/`clientSecret` are parameters.
- `DARData.__repr__` is not modelled: it depends on Python's string quoting.
- NULL column values are not modelled. The token columns are nullable in the schema. `addToDARData` is given strings, but main.py:68 writes whatever JSON values the body holds. A JSON `null` there stores NULL, and the next pass would send the text `None` as the refresh token (main.py:57).
- Concurrent writers between the statements of one pass are not modelled. Without them, `refreshTokenList[0]` cannot fail, so no `IndexError` is modelled.
- The model assumes PostgreSQL checks the bound values of an UPDATE when it plans the statement, as it does for literal values. So the model refuses an unstorable value even when no row matches (`UpdateResult`). For an insert, the encoding check comes first, then the length check, then the key check (`InsertResult`).
- Reads whose key holds U+0000 are not modelled as failures. The server rejects such a bound key, but the model's `GetDARDataViaUUID` and `GetRefreshTokenViaUUID` return `[]`. The refresh loop only reads keys taken from the table, which never hold U+0000.
- DarUtils.RinDARUtils.GetAllDARData: the contract does not state the order of the returned rows, because the `SELECT` has no `ORDER BY`.
