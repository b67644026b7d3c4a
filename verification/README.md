# Conference schedule table — a Dafny model

The web app reads a conference schedule feed and shows its talks in one sortable table. The feed is a JSON document:
schedule → conference → days → rooms → events → persons. This project models the app's pure core in four parts.

1. **The feed schema** (`app/_schema.ts`). Each zod object schema becomes a `Schema` value, with the keys
   marked nullable and optional as zod declares them. One predicate, `Schema.Accepts`, says which JSON documents
   a schema accepts (`Json` is Null | Bool | Num | Str | Arr | Obj). `SchemaFacts` proves, schema by schema, what
   an accepted document must contain. Most of these proofs are if-and-only-if statements.
2. **The flattener** (`parseData` in `app/page.tsx`). It turns the day → room → event tree into one flat list.
   Each event is tagged with the position of its day and with the name of the room it was listed under.
   `Flatten.ParseData` is the loop; `Flatten.Flatten` is its functional reference definition.
3. **The table's data preparation** (`prepareData` in `components/EventsList.tsx`). It runs three filters in this
   order: the chosen day, the language toggles, and a case-insensitive search over the chosen columns. It then
   does a stable ascending sort by one column, and reverses the result for a descending sort.
4. **The initial view** (`foundDay` and the initial `useState` values). During 27–30 December the table opens on
   the matching festival day, otherwise on day 0. It starts filtered to English talks and sorted by date,
   ascending.

Modules: `Wrappers` (Option), `Seqs` (filter, reverse, subsequence, findIndex), `Text` (lower-casing, substring
search, string order), `Json`, `Schema`, `SchemaFacts`, `Types` (the typed schedule and `ExtendedEvent`),
`Flatten`, `StableSort` (a stable insertion sort, generic in the element and the key), and `EventsList`.

## Model

| member | source | states |
|---|---|---|
| Schema.Accepts | app/_schema.ts:3-105 | Definition, no contract: `z.string()`, `z.number()` and `z.boolean()` accept only that JSON type; `z.array(s)` accepts an array whose every item `s` accepts; `z.record(s)` accepts an object whose every value `s` accepts; `z.object(shape)` accepts an object whose every declared key passes, without looking at undeclared keys. The `SchemaFacts` lemmas are its partners. |
| Schema.EntryAccepts | app/_schema.ts:20-24 | Definition, no contract: an absent key passes iff it is `.optional()`, a `null` value passes iff it is `.nullable()`, and any other value must be accepted by the key's schema. |
| Schema.TrackSchema | app/_schema.ts:3-7 | Definition: `trackSchema`, key for key. `SchemaFacts.TrackAcceptedIff` is its partner. |
| Schema.AssemblySchema | app/_schema.ts:9-13 | Definition: `assemblySchema`, key for key. |
| Schema.RoomSchema | app/_schema.ts:15-26 | Definition: `roomSchema`, key for key, with the two descriptions nullable and optional and `features` optional. |
| Schema.PersonSchema | app/_schema.ts:28-35 | Definition: `personSchema`, key for key. |
| Schema.LinkSchema | app/_schema.ts:37-40 | Definition: `linkSchema`, key for key. |
| Schema.AttachmentSchema | app/_schema.ts:42-45 | Definition: `attachmentSchema`, key for key. |
| Schema.EventSchema | app/_schema.ts:47-71 | Definition: `eventSchema`, all 23 keys in their source order. `SchemaFacts.EventAcceptedIff` is its partner. |
| Schema.DaySchema | app/_schema.ts:73-79 | Definition: `daySchema`, key for key. |
| Schema.ConferenceSchema | app/_schema.ts:81-94 | Definition: `conferenceSchema`, key for key. |
| Schema.ScheduleSchema | app/_schema.ts:96-100 | Definition: `scheduleSchema`, key for key. |
| Schema.DataSchema | app/_schema.ts:102-105 | Definition: `dataSchema`, key for key. |
| SchemaFacts.NullNeverAccepted | app/_schema.ts:57-63 | No string, number, boolean, array, record or object schema accepts `null` by itself. |
| SchemaFacts.MissingRequiredKeyRejects | app/_schema.ts:47-64 | For any object shape, removing a key that is not `.optional()` makes the document rejected. |
| SchemaFacts.NullRejectedUnlessNullable | app/_schema.ts:47-64 | For any object shape, setting a key that is not `.nullable()` to `null` makes the document rejected, so `null` passes only through a key declared `.nullable()`. |
| SchemaFacts.UnknownKeyIgnored | app/_schema.ts:47-71 | Adding, replacing or removing a key the shape does not declare never changes acceptance. |
| SchemaFacts.OptionalKeyRemovable | app/_schema.ts:65-70 | Removing an `.optional()` key from an accepted object keeps it accepted. |
| SchemaFacts.NullableKeyAcceptsNull | app/_schema.ts:57-59 | Setting a `.nullable()` key of an accepted object to `null` keeps it accepted. |
| SchemaFacts.EventRequiredFields | app/_schema.ts:47-62 | An accepted event has string `guid`, `date`, `start`, `duration`, `room`, `slug`, `url`, `title`, `type`, `abstract` and `description`, and a numeric `id`. |
| SchemaFacts.EventRequiredFieldsNotNullable | app/_schema.ts:47-64 | Setting any of those keys, or `persons`, to `null` is rejected, and so is leaving it out. |
| SchemaFacts.EventNullableFields | app/_schema.ts:57-63 | `subtitle`, `language`, `track` and `logo` hold a string or `null` in an accepted event; an event without one of them is rejected. |
| SchemaFacts.EventNullableAcceptsNull | app/_schema.ts:57-63 | Setting `subtitle`, `language`, `track` or `logo` of an accepted event to `null` keeps it accepted. |
| SchemaFacts.EventOptionalFieldRemovable | app/_schema.ts:65-70 | Removing `links`, `attachments`, `feedback_url`, `recording_license`, `do_not_record` or `do_not_stream` keeps an event accepted. |
| SchemaFacts.EventOptionalFieldsTyped | app/_schema.ts:65-70 | In an accepted event each of those six keys is absent or has its declared type: link and attachment arrays, strings, booleans. |
| SchemaFacts.EventAcceptedIff | app/_schema.ts:47-71 | An event is accepted iff its eleven string keys hold strings, `id` is a number, `subtitle`, `language`, `track` and `logo` hold a string or `null`, `persons` is an array of accepted persons, and each of the six optional keys is absent or has its declared type. |
| SchemaFacts.EventFieldsAccepted | app/_schema.ts:47-71 | The "if" half of the event rule. |
| SchemaFacts.EventPersons | app/_schema.ts:64 | An accepted event has a `persons` array whose every element is an accepted person. |
| SchemaFacts.EventUnknownKeyIgnored | app/_schema.ts:47-71 | A key outside the 23 event keys never changes whether an event is accepted. |
| SchemaFacts.PersonAcceptedIff | app/_schema.ts:28-35 | A person is accepted iff `guid`, `name`, `public_name` and `url` are strings, `avatar` is a string or `null`, and `biography` is a string, `null` or absent. |
| SchemaFacts.TrackAcceptedIff | app/_schema.ts:3-7 | A track is accepted iff `name`, `color` and `slug` are strings. |
| SchemaFacts.AssemblyAcceptedIff | app/_schema.ts:9-13 | An assembly is accepted iff `name`, `slug` and `guid` are strings. |
| SchemaFacts.LinkAcceptedIff | app/_schema.ts:37-40 | A link is accepted iff `url` and `title` are strings. |
| SchemaFacts.AttachmentAcceptedIff | app/_schema.ts:42-45 | An attachment is accepted exactly when the same document is accepted as a link. |
| SchemaFacts.RoomAcceptedIff | app/_schema.ts:15-26 | A room is accepted iff its four string keys are strings, `stream_id` is a string or `null`, `capacity` is a number, both descriptions are string, `null` or absent, `features` is absent or a record of strings, and `assembly` is an accepted assembly. |
| SchemaFacts.RoomAcceptedHasFields | app/_schema.ts:15-26 | The "only if" half of the room rule. |
| SchemaFacts.RoomFieldsAccepted | app/_schema.ts:15-26 | The "if" half of the room rule. |
| SchemaFacts.DayAcceptedIff | app/_schema.ts:73-79 | A day is accepted iff `index` is a number, `date`, `day_start` and `day_end` are strings, and `rooms` is an object whose every value is an array of accepted events. |
| SchemaFacts.ConferenceAcceptedIff | app/_schema.ts:81-94 | A conference is accepted iff its seven string keys are strings, `daysCount` is a number, `tracks`, `rooms` and `days` are arrays of accepted tracks, rooms and days, and `assembly` is absent or a record of accepted assemblies. |
| SchemaFacts.ConferenceAccepted | app/_schema.ts:81-94 | The "only if" half of the conference rule. |
| SchemaFacts.ConferenceFieldsAccepted | app/_schema.ts:81-94 | The "if" half of the conference rule. |
| SchemaFacts.ConferenceScalars | app/_schema.ts:82-89 | An accepted conference has its string keys and a numeric `daysCount`. |
| SchemaFacts.ConferenceAssemblyOptional | app/_schema.ts:92 | Dropping `assembly` keeps a conference accepted. |
| SchemaFacts.ScheduleAcceptedIff | app/_schema.ts:96-100 | A schedule is accepted iff `version` and `base_url` are strings and `conference` is an accepted conference. |
| SchemaFacts.DataAcceptedIff | app/_schema.ts:102-105 | The whole document is accepted iff `$schema` is a string and `schedule` is an accepted schedule. |
| Flatten.Flatten | app/page.tsx:24-38 | Definition, no contract: the reference flattening of the conference's days. `FlattenCount`, `FlattenAt` and `FlattenMembership` characterise it. |
| Flatten.DaysEvents | app/page.tsx:27-36 | Definition, no contract: the rows of each day in turn, tagged with the day's position. |
| Flatten.RoomsEvents | app/page.tsx:29-35 | Definition, no contract: the rows of each room of one day in turn, tagged with the room key. |
| Flatten.Tag | app/page.tsx:31-33 | Each event of a room is copied in order, with `room` replaced by the room key and `day` set to the day's position; no other field changes. |
| Flatten.ParseData | app/page.tsx:24-38 | The nested loops produce exactly the reference flattening `Flatten`. |
| Flatten.PushDay | app/page.tsx:28-35 | The room loop of one day appends that day's rooms' events, room by room, to what was collected before. |
| Flatten.PushRoom | app/page.tsx:30-34 | The event loop appends the room's tagged events to what was collected before. |
| Flatten.RoomsEventsCount | app/page.tsx:29-35 | One day contributes as many rows as its rooms hold events in total. |
| Flatten.FlattenCount | app/page.tsx:27-36 | The output length is the sum, over all days and all rooms of each day, of the room's event count. |
| Flatten.RoomsEventsAt | app/page.tsx:29-34 | Within a day, event `k` of room `r` sits at position (events of rooms before `r`) + `k`. |
| Flatten.FlattenAt | app/page.tsx:27-34 | Output order is day-major, then room order, then the room's event order: event `k` of room `r` of day `d` sits at position (events of earlier days) + (events of earlier rooms of day `d`) + `k`, tagged with room key `r` and day `d`. |
| Flatten.TagMembership | app/page.tsx:31-33 | Every tagged row comes from some event of that room. |
| Flatten.RoomsEventsMembership | app/page.tsx:29-35 | Every row of a day comes from some event of some room of that day, with that room's key. |
| Flatten.FlattenMembership | app/page.tsx:27-36 | A row is in the output iff it is some event of some room of some day, with the room key as `room` and the day's array position (not its `index` field) as `day`. |
| Flatten.RoomsEventsAppend | app/page.tsx:29-35 | The rows of a day split at any room boundary: rooms `a + b` yield the rows of `a` followed by the rows of `b`. |
| Flatten.EmptyRoomContributesNothing | app/page.tsx:30-35 | Inserting a room with no events anywhere in a day leaves the output unchanged. |
| Flatten.RoomsCountZero | app/page.tsx:29-35 | A day that contributes no rows has only empty rooms. |
| Flatten.FlattenDays | app/page.tsx:27-33 | Every row's `day` is a valid day position, and that day contributes at least one row. |
| Types.FieldText | components/EventsList.tsx:56-57 | `typeof event[field] === "string"`: always-string columns always yield text, and number, boolean and array columns never do. |
| Text.Lower | components/EventsList.tsx:53 | Lower-casing keeps the length and maps each character on its own. |
| Text.Contains | components/EventsList.tsx:57 | Definition, no contract: `includes`, as "the needle is a prefix here or further on". `Text.ContainsIff` is its partner. |
| Text.LessEq | components/EventsList.tsx:63 | Definition, no contract: the string order lodash's comparator applies to the sort keys, lexicographic by character with a proper prefix first. The four `LessEq` lemmas show it is a total order. |
| Text.ContainsIff | components/EventsList.tsx:57 | `includes` holds iff the needle occurs at some position of the haystack. |
| Text.LessEqReflexive | components/EventsList.tsx:63 | The string order used as the sort key order is reflexive. |
| Text.LessEqTotal | components/EventsList.tsx:63 | Any two keys are comparable. |
| Text.LessEqTransitive | components/EventsList.tsx:63 | The key order is transitive. |
| Text.LessEqAntisymmetric | components/EventsList.tsx:63 | Two keys each at most the other are equal, so equal-ranked rows are exactly ties. |
| Seqs.Filter | components/EventsList.tsx:38-61 | `Array.filter`: the result is no longer than the input, and every kept element passes the test. |
| Seqs.Reverse | components/EventsList.tsx:65 | `Array.reverse`: the result has the input's length. `ReverseAt` gives its contents. |
| Seqs.FilterMultiplicity | components/EventsList.tsx:38-61 | `Array.filter` keeps every element that passes the test as often as it occurs, and drops every other element. |
| Seqs.FilterSubsequence | components/EventsList.tsx:38-61 | `Array.filter` returns an order-preserving subsequence of its input. |
| Seqs.SubsequenceTransitive | components/EventsList.tsx:35-62 | Chaining filter stages keeps the result a subsequence of the original list. |
| Seqs.FilterReverse | components/EventsList.tsx:63-66 | Filtering a reversed list gives the reverse of the filtered list. |
| Seqs.ReverseAt | components/EventsList.tsx:65 | `reverse` puts element `i` at position `n - 1 - i`. |
| Seqs.ReverseMultiset | components/EventsList.tsx:65 | `reverse` is a permutation. |
| Seqs.ReverseReverse | components/EventsList.tsx:65 | Reversing twice gives the original list. |
| Seqs.ReverseAppend | components/EventsList.tsx:65 | The reverse of `a + b` is the reverse of `b` followed by the reverse of `a`. |
| Seqs.FindIndex | components/EventsList.tsx:93 | `findIndex` with strict equality on numbers gives -1 iff the value is absent, otherwise the first position holding it. |
| StableSort.Insert | components/EventsList.tsx:63 | Inserting into a sorted list adds exactly that element. |
| StableSort.SortAsc | components/EventsList.tsx:63 | The sort result is a permutation of its input. |
| StableSort.SortAscAscending | components/EventsList.tsx:63 | The sort result is in non-decreasing key order. |
| StableSort.SortAscStable | components/EventsList.tsx:63 | Stability: for every key, the elements with that key appear in the sorted list in their input order. |
| StableSort.AscendingWithSameTiesEqual | components/EventsList.tsx:63 | Two ascending lists with the same order among every key's ties are equal. |
| StableSort.SortAscUnique | components/EventsList.tsx:63 | Any ascending arrangement that keeps each key's ties in input order is the sort result, so the model agrees with every stable sort, lodash `sortBy` among them. |
| StableSort.InsertTies | components/EventsList.tsx:63 | Insertion puts the new element in front of the elements of the sorted list that have its key, and leaves the ties of every other key unchanged. |
| StableSort.ReverseAscending | components/EventsList.tsx:64-66 | Reversing an ascending list gives a descending one. |
| StableSort.ReverseTies | components/EventsList.tsx:64-66 | After reversal, each key's ties appear in reversed order. |
| StableSort.TiesMembership | components/EventsList.tsx:63 | An element is among a key's ties iff it is in the list and has that key. |
| EventsList.DayStage | components/EventsList.tsx:38 | The day stage keeps exactly the events whose `day` equals the chosen day, each as often as it occurs and in input order. |
| EventsList.KeepsLanguage | components/EventsList.tsx:39-51 | Definition, no contract: the if/else-if chain as written, falling through to a falsy result. `LanguageStage` proves it equal to the three-way disjunction `LanguageSelected`. |
| EventsList.LanguageStage | components/EventsList.tsx:39-51 | The language stage keeps an event iff (`en` and language "en") or (`de` and language "de") or (`other` and the language is neither). A `null` language counts as other. |
| EventsList.MatchesText | components/EventsList.tsx:54-61 | Definition, no contract: the `for … of` loop over the chosen fields, stopping at the first string field whose lower-cased text contains the query. `MatchesTextIff` is its partner. |
| EventsList.MatchesTextIff | components/EventsList.tsx:54-61 | The field loop succeeds iff some chosen field holds a string whose lower-cased form contains the query at some position. |
| EventsList.TextStage | components/EventsList.tsx:52-62 | An empty query leaves the list unchanged. Otherwise the stage keeps exactly the events with a chosen string field that contains the lower-cased query once it is lower-cased itself, in input order. |
| EventsList.SearchFieldScope | components/EventsList.tsx:55-60 | Searching more columns never loses a match, and a match over `fs + gs` is a match over `fs` or over `gs`. |
| EventsList.NonStringFieldsNeverMatch | components/EventsList.tsx:56-57 | A non-empty query over columns that never hold a string (id, persons, links, attachments, booleans, day) keeps nothing. |
| EventsList.Narrow | components/EventsList.tsx:35-62 | The three stages keep exactly the events that pass all three tests, as an order-preserving subsequence of the input. |
| EventsList.KeyOf | components/EventsList.tsx:63 | Definition, no contract: lodash's `[sortBy]` property iteratee, reading the text of the chosen column from an event. `EventsList.SortRows` and `EventsList.SortRowsUnique` are its partners. |
| EventsList.SortRows | components/EventsList.tsx:63-66 | The sorted rows are a permutation of the filtered rows, in non-decreasing order of the sort column for ASC and non-increasing order for DESC. |
| EventsList.SortRowsTies | components/EventsList.tsx:63-66 | Rows with equal sort keys keep their filtered order for ASC and come out in reverse filtered order for DESC. |
| EventsList.DescendingReversesAscending | components/EventsList.tsx:63-66 | The DESC rows are the ASC rows reversed, element for element, and vice versa. |
| EventsList.SortRowsUnique | components/EventsList.tsx:63 | Any ascending arrangement of the rows that keeps each key's ties in order is the ASC result, so any stable sort by the column gives the same rows. |
| EventsList.PrepareData | components/EventsList.tsx:28-68 | The table rows hold exactly the events passing all three filters, each as often as in the input. They are in non-decreasing order of the sort column for ASC and non-increasing order for DESC. |
| EventsList.PrepareDataTies | components/EventsList.tsx:63-66 | In the table, rows with equal sort keys keep their filtered order for ASC and come out in reverse filtered order for DESC. |
| EventsList.PrepareDataDescending | components/EventsList.tsx:63-66 | The DESC table is the ASC table reversed, element for element. |
| EventsList.PermissiveFiltersKeepDay | components/EventsList.tsx:38-62 | With all three languages on and an empty query, the filtered rows are exactly the chosen day's events. |
| EventsList.AllLanguagesOffShowsNothing | components/EventsList.tsx:39-51 | With all three language toggles off, the table is empty whatever the other settings. |
| EventsList.FoundDay | components/EventsList.tsx:86-102 | In December on day 27–30, the result is the date minus 27; otherwise it is 0. It always lies in 0..3. |
| EventsList.DefaultFilters | components/EventsList.tsx:105-114 | Definition, no contract: the initial filters are day `foundDay || 0`, English on and German and other languages off, search columns `room`, `title` and `date`, and an empty query. `EventsList.DefaultView` is its partner. |
| EventsList.DefaultSorting | components/EventsList.tsx:120-123 | Definition, no contract: the initial sorting is by `date`, ascending. `EventsList.DefaultView` is its partner. |
| EventsList.DefaultView | components/EventsList.tsx:104-123 | Initially the table holds the found day's English events, each as often as it occurs, in ascending date order. |

## Left out

- The feed schema is declared but never applied in the code modelled here. `fetchData` (`app/page.tsx:14-20`) passes the result of `x.json()` straight to `parseData`, and the only `.parse` call is for the environment (`app/env.ts:10`). `Flatten` and `EventsList` therefore take a well-typed `Types.Schedule` as given, an assumption the program itself never checks. `Types.FieldText`'s always-string columns, `EventsList.NonStringFieldsNeverMatch` and the `SortField` restriction rest on it. The schema model says what a checked feed would contain; it is not a stage of the pipeline.
- `fetchData` (`app/page.tsx:9-22`): the HTTP request, the local-file read, `JSON.parse` and the revalidation setting are I/O. `ParseData` takes the already-parsed schedule. The `USE_FAKE_EVENTS` branch (`app/page.tsx:10-13`) returns the parsed file without flattening it; that branch is not modelled.
- zod's parse output: key stripping, the typed result and error messages. Only acceptance is modelled; the typed `Types.Schedule` is an input of its own and is not derived from the `Json` value.
- JSON numbers are modelled as integers. Only their type tag matters for acceptance, and no core operation does arithmetic on them.
- Duplicate keys in a JSON object: `Json.Get` reads the first occurrence, whereas `JSON.parse` keeps the last one. Parsed objects never have duplicate keys, so this never matters for a real feed.
- JavaScript's object key enumeration order. `for … in` over a room map visits integer-like keys first. The model takes the room list in the order given.
- `for … in` over the days array yields index strings, and `parseInt(day, 10)` turns them back into the position. The model uses the position directly. The day's own `index` field is not used, and the model follows the code in this.
- The `Rooms` interface in `types.ts` maps a room to a single event, but the feed (and `daySchema`) has an array of events per room. The model follows the feed.
- React state, `updateFilters` merging, `cellRenderer` (luxon date formatting), table virtualisation, CSS, `components/Filters.tsx`, `components/nav.tsx`, the `pages/` and `app/layout.tsx` markup, and `app/env.ts`, `config.ts` and `next.config.js`. These are user interface and configuration.
- Live/finished status, main vs. self-organised category filtering, and merging two feeds. The modelled code does not implement them; the commented-out track filter at `components/EventsList.tsx:36-37` is inactive.
- `EventsList.FoundDay`: reads no clock. The month and day of month are parameters, because `new Date()` is the environment. `foundDay || 0` equals `foundDay`, since `foundDay` is always a number.
- `Text.Lower`: lower-cases ASCII letters only; full Unicode case mapping of `toLowerCase` is not modelled.
- `EventsList.PrepareData`: the sort column is restricted to columns that always hold a string (`SortField`). lodash's ordering of mixed, `null` or missing sort keys is not modelled.
- `Text.LessEq`: compares strings character by character. JavaScript compares UTF-16 code units, which agrees with this outside surrogate pairs.
