# traefisy core in Dafny

traefisy is a command-line tool that asks a user for reverse-proxy routers
(name, host rule, backend service name and url, TLS flag) and stores them in
a local SQLite database. Its `export` command turns the stored routers into
the proxy's dynamic configuration document. This project models two parts of
that tool:

1. **The record store** (`traefisy/utils.py` over the schema of
   `traefisy/db/models.py`). The database is a value `Db(routers, settings)`.
   Both tables are sequences of rows in insertion order. On top of it sit
   `get_routers`, `add_router`, `is_router_duplicate`, `remove_router`,
   `save_acme_info` and `get_acme_info`. There is also a history of
   operations, `Run`, over which two table-level invariants are proved: at
   most one settings row exists, and router ids stay distinct. `Run` takes
   the id test that deletion uses as a parameter, so the invariants cover
   `remove_router` both as written and with the literal prefix test.
2. **The dynamic-config projection** (`export` in `traefisy/main.py` and the
   same projection in the older `main.py`; the two differ only in the output
   path and the message they print). The document is a tree of
   `Str`/`List`/`Dict` nodes, so "the key is absent" is something the model
   can state. The export loop is a left fold (`Export.Fold`) over the
   routers in list order. The guarded insert of `add`/`init` and the
   unguarded `init` loop of the older script are in `Commands`.

Files: `models.dfy` (record shapes), `store.dfy` (store operations and
invariants), `export.dfy` (projection), `commands.dfy` (`add`/`init`),
`sql_like.dfy` (the id lookup as the ORM actually runs it; see Findings).

Modelling decisions:

- **Schema.** `traefisy/utils.py:2` imports the top-level `db.models`, which
  has integer ids and no `Settings` class. As written, `save_acme_info` would
  fail on that schema. The model uses `traefisy/db/models.py` instead: uuid
  string ids and a `settings` table. The older `utils.py` (`add_router`,
  `get_routers`) behaves the same apart from its integer ids, so one
  `Store.AddRouter` models both; the id is a parameter either way.
- **Ids.** The uuid the column default generates is passed in as a parameter.
  Uniqueness is assumed only where it is needed: as the freshness
  precondition of `AddRouterKeepsUniqueIds`, and as `DistinctOpIds` for a
  whole history.
- **`.first()` without ordering.** `FirstIndex` picks the lowest index.
  The contracts of `RemoveRouter` and `GetAcmeInfo` promise only "some
  matching row", never a particular tie-break.
- **Settings table.** It is a sequence of rows, not an option. That makes
  "at most one Settings ever" a proved invariant (`RunSettingsSingleton`)
  rather than a fact of the type.
- **Middlewares.** The code leaves `http.middlewares` as an empty mapping.
  The model follows the code.

## Model

| member | source | states |
|---|---|---|
| Models.NewRouter | traefisy/db/models.py:20-26 | a router row carries the given id and the five required string fields; `tls` is false when it is not supplied and otherwise the supplied value |
| Models.ShortId | traefisy/main.py:117 | the id shown by `show` (`id[:8]`) is a prefix of the id, of length min(8, len(id)) |
| Store.FirstIndex | traefisy/utils.py:46-48 | a `filter(...).first()` lookup finds a row iff some row satisfies the filter, and the row it finds satisfies it |
| Store.IsRouterDuplicate | traefisy/utils.py:24-27 | true iff some stored router has the given name OR the given domain; a clash on one field alone is enough |
| Store.AddRouter | traefisy/utils.py:30-42 | the list grows by exactly one row; earlier rows are unchanged; the new last row carries the six given field values and is the returned record; settings are untouched |
| Store.GetRoutersAfterAdd | utils.py:14-21 | listing after `add_router` returns every earlier row, in order, followed by the returned record, and nothing else |
| Store.RemoveWith | traefisy/utils.py:45-54 | for any id matcher: returns True iff the id lookup or the exact-name lookup hits; the name lookup decides only when no id matches; on True exactly one matching row is deleted and all others remain in order; on False the store is unchanged |
| Store.RemoveRouter | traefisy/utils.py:45-54 | `remove_router` with the prefix test: True iff some id starts with the identifier or some name equals it; a prefix match takes priority over a name match; on True exactly one such row is deleted and every other row remains; on False nothing changes |
| Store.RemoveByShortId | traefisy/utils.py:46-53 | the 8-character abbreviation of an id that no other id starts with deletes exactly that router |
| Store.EmptyIdentifierRemovesSome | traefisy/utils.py:46-53 | an empty identifier is a prefix of every id, so on a non-empty store it deletes one router |
| Store.SaveAcmeInfo | traefisy/utils.py:5-13 | routers are untouched; the saved values are present afterwards; an existing table keeps its row count (update in place); from at most one row the table becomes exactly the one saved row |
| Store.GetAcmeInfo | traefisy/utils.py:16-17 | returns none iff the settings table is empty, otherwise a stored settings row |
| Store.SaveThenGet | traefisy/utils.py:5-17 | reading back after a save returns exactly the saved email and certificate directory |
| Store.SaveTwice | traefisy/utils.py:6-12 | two saves leave a single row holding the second call's values |
| Store.AddRouterKeepsUniqueIds | traefisy/db/models.py:20 | inserting a router with a fresh id keeps all router ids distinct |
| Store.WithoutKeepsIds | traefisy/utils.py:50-53 | deleting a row keeps the remaining ids distinct and introduces no id |
| Store.RunIds | traefisy/db/models.py:20 | after any history of inserts, deletions and saves from the empty store, every stored id was issued by one of its inserts, and ids are distinct when the issued ids are; this holds whichever id test deletion uses |
| Store.RunSettingsSingleton | traefisy/utils.py:6-12 | after any history from the empty store there is at most one settings row, and exactly one once any save has happened; this holds whichever id test deletion uses |
| Export.Rule | traefisy/main.py:146 | the rule is the domain wrapped as Host(`domain`): the fixed 6-character head, the domain itself, the fixed 2-character tail |
| Export.RouterEntry | traefisy/main.py:145-152 | a router entry has exactly the keys rule, service and entryPoints, plus tls iff the router has TLS on; rule is Host(`domain`), service is the service name, entryPoints is the one-element list of the entrypoint, tls is {certResolver: letsencrypt} |
| Export.DynamicConfig | traefisy/main.py:136-142 | the document has the single top-level key http, which holds exactly routers, services and middlewares; middlewares stays empty |
| Export.StepWritesEntries | main.py:110-126 | one loop iteration (write the entry, then add tls when enabled, then write the service) stores exactly the complete router entry under the name and the service entry under the service name, overwriting any earlier entry |
| Export.SectionKeys | traefisy/main.py:144-154 | the keys of routers are exactly the stored router names, and the keys of services exactly the stored service names |
| Export.RoutersLastWriteWins | traefisy/main.py:144-152 | the entry under a name is the complete entry of the last router in list order with that name |
| Export.ServicesLastWriteWins | traefisy/main.py:154-160 | the entry under a service name is one load balancer whose single server url is that of the last router in list order with that service name |
| Export.RouterEntryOrigin | main.py:110-118 | every router entry is the complete entry of some stored router with that name |
| Export.NoDanglingServices | traefisy/main.py:145-160 | in the exported document, every router entry names, as a string, a service that is a key of http.services: no dangling references |
| Export.BlogExample | traefisy/main.py:136-160 | a TLS router "blog" on blog.example.com with service blog-svc at http://127.0.0.1:9000 projects to that rule, service, resolver and server url |
| Commands.Add | traefisy/main.py:78-83 | the entry is added iff no stored router shares its name or domain; on a clash the store is unchanged; otherwise exactly one router is appended, on websecure with the chosen tls |
| Commands.AddKeepsNoClash | traefisy/main.py:78-83 | if stored routers have pairwise distinct names and domains, they still do after `add` |
| Commands.Init | traefisy/main.py:37-53 | the router loop only appends, at most as many routers as there are entries; every appended row is one of the entries on websecure with the tls chosen earlier; every appended row shares neither name nor domain with any row before it, whatever the starting store holds; a clash-free store stays clash-free; settings are untouched |
| Commands.InitUnfold | traefisy/main.py:37-52 | the last entry is checked and stored against the store that the earlier entries left |
| Commands.InitConcat | traefisy/main.py:37-52 | entries are processed in the order entered: the loop over two batches in turn equals the loop over their concatenation |
| Commands.FirstWins | traefisy/main.py:47-52 | of two entries sharing a name or domain, the first one, if it clashes with nothing stored, is the one stored, and the second adds nothing |
| Commands.InitWithoutClashIsLegacy | traefisy/main.py:37-52 | entries that clash neither with one another nor with any stored row are all appended, in the order entered, exactly as the unchecked older loop appends them, whatever the stored rows hold among themselves |
| Commands.LegacyRowsAvoid | main.py:38-48 | an entry that clashes with no stored row and with none of the entries clashes with no row the unchecked loop stores |
| Commands.InitStep | traefisy/main.py:46-52 | one loop iteration keeps every appended row drawn from the entries and free of clashes with the rows before it |
| Commands.InitCoversEntries | traefisy/main.py:46-52 | a skipped entry does not stop the loop: after it, every entry's name or domain is present in the store |
| Commands.InitSkipsClash | traefisy/main.py:47-52 | two entries with the same name store only the first |
| Commands.LegacyInit | main.py:38-48 | the older loop appends every entry, in order, on websecure with the chosen tls, with no duplicate check |
| Commands.LegacyInitAdmitsClash | main.py:38-48 | two entries with the same name are both stored; the export then has one router key, whose entry comes from the second |
| SqlLike.RemoveRouterAsWritten | traefisy/utils.py:45-54 | `remove_router` with the id test it really runs (SQL LIKE identifier followed by `%`): same policy, same True/False and unchanged-store guarantees |
| SqlLike.WildcardFreeIsPrefix | traefisy/utils.py:46 | for identifiers without `%` or `_`, the LIKE test is exactly the literal prefix test |
| Store.RemoveWithAgrees | traefisy/utils.py:46-53 | two id tests that agree on every stored id give the same deletion and the same answer |
| SqlLike.WildcardFreeRemoveAgrees | traefisy/utils.py:45-54 | for identifiers without `%` or `_`, and with letter case compared exactly, `remove_router` as written and the literal policy give the same store and the same answer |
| SqlLike.AsWrittenHistoryInvariants | traefisy/utils.py:45-54 | with deletion as written, stored ids stay distinct and were all issued by inserts, and the settings table holds at most one row |
| SqlLike.UnderscoreMatchesId | traefisy/utils.py:46 | the identifier "a_b" matches the id "a0b1c2d3" under the LIKE test |
| SqlLike.UnderscoreDeletesWrongRouter | traefisy/utils.py:46-53 | as written, `remove_router("a_b")` deletes the router with id "a0b1c2d3" rather than the router named "a_b" |
| SqlLike.LiteralPrefixDeletesNamedRouter | traefisy/utils.py:46-53 | with the literal prefix test, the same call deletes the router named "a_b" |

## Left out

- Typer/Rich prompting, confirmations and the `show` table rendering: terminal I/O. Only the `id[:8]` abbreviation is modelled.
- The ports and ACME email read in `init`: they are read and then discarded.
- YAML encoding and writing of `dynamic_conf.yml`: file I/O. The in-memory document is modelled instead.
- SQLAlchemy engine and session lifecycle, schema creation, and `check_if_db_exists` (which deletes a file): library plumbing and file-system I/O.
- Storage failures: commits are treated as always succeeding.
- `created_at` timestamps and uuid randomness: clock and randomness. Ids are parameters.
- The unused `Service` table, and `db/models.py`: the superseded schema adds no behaviour.
- The static proxy document, an HTTPS-redirect middleware, `acme.json` and the container launch: no modelled source file implements them.
- The race between the duplicate check and the insert: concurrency is out of scope.
- Case folding in the id lookup: SQLite's LIKE is case-insensitive for ASCII letters, and the model compares characters exactly. So an upper-case abbreviation that SQLite would accept is not matched here. Likewise, with the source as written, SQLite matches an identifier with upper-case letters, such as the name "CAFE", against any id starting "cafe" and deletes that router instead of the one with that name. This is a second way the id lookup shadows the name lookup, beside the wildcards under Findings. `SqlLike.WildcardFreeRemoveAgrees` holds only in this case-sensitive model.

## Findings

| source | as written | input that shows it | evidently intended | confidence | as-written member | corrected member |
|---|---|---|---|---|---|---|
| traefisy/utils.py:46 | `Router.id.startswith(identifier)` compiles to `id LIKE identifier \|\| '%'` with no escaping, so `_` and `%` in the identifier are wildcards | stored routers with id "a0b1c2d3" (name "web") and id "ffff0000" (name "a_b"); `remove_router("a_b")` | a literal prefix test: no id starts with "a_b", so the name lookup deletes the router named "a_b" | not executed; medium (relies on the ORM's default of no autoescape) | SqlLike.UnderscoreDeletesWrongRouter | Store.RemoveRouter |
