# Item catalog service: the in-memory catalog

This project models the in-memory catalog behind the item search service
(`server.go`): an ordered list of items (`id`, `name`, `price`), an index from
item name to item id, and an append-only activity log, together with the
handlers that read and change them:

- start-up builds the name index from the four seed items;
- search returns the items whose lower-cased name contains the lower-cased
  query, in list order, and logs the lower-cased query;
- add gives the decoded item the id `len(items) + 1`, appends it, maps its name
  to that id and logs the name;
- delete splices out the first item with the requested id, removes that item's
  name from the index and logs the id;
- the activity-log handler returns every entry, oldest first.

The state is the class `Server.Catalog` with fields `items: seq<Item>`,
`index: map<string, int>` and `log: seq<LogEntry>`. The three handlers that
change state (search, add, delete) are methods with `modifies this` whose
postconditions give the whole new state in terms of the old one; the log
reader has no `modifies` clause, so it changes nothing. The loops of the
source (building the index, filtering, the delete scan with its early exit,
walking the log) are `while` loops with invariants. What arrives over HTTP becomes a plain parameter: the query
string, an `Option<Item>` for the decoded request body and an `Option<int>`
for the parsed `id`. Handler answers are `Result`/`Outcome` values carrying an
`Error` (`InvalidInput`, `InvalidId`, `ItemNotFound`) instead of status codes.
Log entries are the tagged values `Searched(query)`, `Added(name)` and
`Deleted(id)` instead of formatted strings.

The object invariant `Valid()` is `IndexAgrees`: at every key the index still
has, it agrees with the index built from the current items, so the last item
carrying a name keeps winning. Every handler keeps it, and it implies
`IndexSound` (every key names a listed item with the id the index gives).
Keys can go missing, though: the converse (every listed name is a key) is not
an invariant of the code, and two quirks of the source are proved as such:

- the next id `len(items) + 1` can collide with an id already in use once a
  non-last item has been deleted (`NextIdCollides`, `IdCollisionScenario`:
  delete id 1 from the seed, then add, and the new item gets id 4, which
  "PS 4" already has);
- delete removes the index key of the deleted item's name even when another
  item with that name is still listed (`RemoveOrphansNamesake`,
  `StaleIndexScenario`).

Files: `wrappers.dfy` (option and result shapes), `text.dfy` (ASCII
lower-casing and substring containment), `server.dfy` (items, the index, the
catalog class and its handlers, and the lemmas).

## Model

| member | source | states |
|---|---|---|
| Text.LowerChar | server.go:42 | the lower-cased character is never an upper-case ASCII letter; an upper-case letter's code point goes up by 32, anything else is kept |
| Text.Lower | server.go:42 | lower-casing keeps the length and lower-cases each character at its own position, leaving no upper-case ASCII letter |
| Text.LowerIdempotent | server.go:45 | lower-casing an already lower-cased string changes nothing |
| Text.Contains | server.go:45 | substring containment as `strings.Contains` decides it; described by `ContainsAt` |
| Text.ContainsAt | server.go:45 | substring containment holds exactly when some window of the name, at some position, equals the query |
| Server.Seed | server.go:20-25 | the four seed items; described by `SeedIndex` and the two scenarios |
| Server.NameIndex | server.go:34-38 | the index start-up builds by inserting names in list order; described by `NameIndexKeys` and `NameIndexLastWins` |
| Server.NameIndexKeys | server.go:34-38 | the keys of the index built at start-up are exactly the names of the listed items |
| Server.NameIndexLastWins | server.go:34-38 | for a name that occurs several times, the index holds the id of its last occurrence |
| Server.NameIndexSound | server.go:34-38 | every key of the built index maps to the id of some item carrying that name |
| Server.SeedIndex | server.go:20-25 | the start-up index is exactly Laptop→1, Smartphone→2, Headphones→3, PS 4→4 |
| Server.Matches | server.go:45 | the filter test: the lower-cased name contains the lower-cased query; described by `MatchPositionsExact` |
| Server.Matching | server.go:44-48 | the filtered list is no longer than the list, and each of its items is listed and matches the query |
| Server.MatchingAtPositions | server.go:44-48 | the k-th search result is the item at the k-th matching position of the list |
| Server.MatchPositionsAscend | server.go:44-48 | the matching positions strictly ascend, so results keep the list's order |
| Server.MatchPositionsExact | server.go:44-48 | a position is among the matching positions exactly when its item's lower-cased name contains the query |
| Server.MatchingEmptyQuery | server.go:42-48 | an empty query returns every item, in order |
| Server.MatchingCaseInsensitive | server.go:42-45 | two queries that differ only in ASCII case give the same results |
| Server.FirstWithId | server.go:76-77 | finds the first position with the id, with no earlier position carrying it, or reports that no position carries it |
| Server.RemoveAt | server.go:78 | splicing out position k shortens the list by one and keeps every other item in order |
| Server.AppendKeepsSound | server.go:61-62 | appending an item and mapping its name to its id keeps the index sound |
| Server.RemoveKeepsSound | server.go:78-79 | splicing out an item and deleting its name keeps the index sound |
| Server.AgreementIsSound | server.go:36 | an index that agrees with the built one at every key it has is sound |
| Server.AppendKeepsAgreement | server.go:61-62 | appending an item and mapping its name to its id keeps the index in agreement with the built one |
| Server.RemoveAtIndex | server.go:78 | away from the spliced item's name, the built index has the same keys and values after the splice |
| Server.RemoveKeepsAgreement | server.go:78-79 | splicing out an item and deleting its name keeps the index in agreement with the built one |
| Server.RemoveOrphansNamesake | server.go:78-79 | when another item shares the deleted item's name, the index afterwards misses a listed name |
| Server.NextIdCollides | server.go:60 | with ids 1..n, after a delete the next id `len + 1` is already taken exactly when the deleted item was not the last |
| Server.Catalog.constructor | server.go:20-38 | start-up state: the seed items, the index built from them, an empty log, and the invariant holds |
| Server.Catalog.SearchItems | server.go:41-51 | returns the matching items in order, leaves items and index unchanged, appends exactly the lower-cased query to the log |
| Server.Catalog.AddItem | server.go:54-65 | on a decoded body: the item gets id old length + 1, is appended, the index maps its name to it, one entry is logged; on a bad body nothing changes |
| Server.Catalog.DeleteItem | server.go:68-90 | on a parsed id that is present: the first such item is spliced out, its name leaves the index, one entry is logged; a bad id or an absent id changes nothing and reports the error |
| Server.Catalog.GetActivityLog | server.go:93-99 | returns every log entry, oldest first, without changing the log |
| Server.IdCollisionScenario | server.go:20-25 | deleting id 1 from the seed and then adding yields id 4 twice: ids 2, 3, 4, 4 |
| Server.StaleIndexScenario | server.go:76-83 | after adding a second Laptop and deleting id 1, a Laptop is listed but "Laptop" is no longer an index key |

## Left out

- HTTP routing, method dispatch, status codes and the listener (`server.go:108-124`): handler answers are `Result`/`Outcome` values instead.
- JSON decoding and encoding (`server.go:56`, `server.go:102-105`): the decoded body is an `Option<Item>`; a search with no match answers JSON `null` in the source (a nil slice), and so does the activity-log handler on an empty log (a nil `logs`, `server.go:94`); the model returns an empty sequence in both cases.
- Parsing of the `id` parameter with `strconv.Atoi` (`server.go:70`): it arrives as an `Option<int>`.
- Formatting of log lines with `fmt.Sprintf` (`server.go:49`, `63`, `81`): entries are tagged values carrying the same query, name or id.
- Text.Lower: lower-cases ASCII letters only, where the source's `strings.ToLower` follows Unicode case mapping.
- Concurrency: the handlers share the state without locking; the model runs them one at a time.
- Integer width: ids and prices are unbounded integers. The source uses Go's `int`, which is 32 or 64 bits depending on the platform; `len(items) + 1` overflows only for a catalog holding the largest `int` number of items, which memory cannot hold.
- The bounded recent-items queue and the undo stack: server.go has no code for them.
