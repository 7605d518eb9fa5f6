# Threat catalog browser — selection and aggregation engine

A Dafny model of the logic inside `app.js`, a single-page browser for a catalog
of security threats. The page loads the catalog (a JSON object mapping threat
identifiers such as `"T.12"` to entries listing *objects of impact* and
*implementation methods*), lists the identifiers sorted by their number, lets
the user select several threats, and shows the de-duplicated union of the
objects and implementations the selected threats contribute, with a live
case-insensitive search over the shown items.

The model is organised by component:

- `catalog.dfy` (`Catalog`): records, entries and the loaded catalog.
- `aggregator.dfy` (`Aggregator`): `getCombinedDetails`. The specification is
  a first-writer-wins de-duplication (`Dedup`) of the stream of records the
  selected entries contribute (`Contributed`), giving `Combine`. The algorithm
  is the imperative method `CombinedDetails`. Its nested loops fill two
  dictionaries keyed by record id. Each dictionary is a `RecordTable`: a map
  plus the insertion order of its keys, which is what `Object.values` reports.
  The method is proved equal to `Combine`.
- `aggregate_properties.dfy`: uniqueness, provenance, coverage and which
  contributor wins. It also proves `Dedup` equal to the reference definition
  `FirstOccurrences`, which `aggregator.dfy` declares.
- `listing.dfy` / `listing_properties.dfy`: `getSortedThreats`. It uses the
  ordinal parsed by a model of `parseInt(id.split(".")[1])` and a stable
  insertion sort. The lemmas prove it is a permutation of the keys and
  non-decreasing by ordinal.
- `selection.dfy` / `selection_properties.dfy`: the session state as a class
  `Session`. It holds the insertion-ordered selection set, the "show selected"
  button's `disabled` flag, the details panel and the theme. Its methods are
  toggle, clear, show and the theme switch. The pure functions `Without` and
  `Toggled` specify the set operations.
- `search.dfy` / `search_properties.dfy`: the search field's input handler as
  the method `DetailsView.Filter`. It works over the items' texts, an array of
  visibility flags and a count of "nothing found" markers.

The model follows the code in these places:

- Toggling accepts any identifier; it does not check that the identifier is in the catalog.
- Toggling after "show" leaves the shown details in place, stale; `ToggleThreat` keeps `details` unchanged.
- With no catalog loaded, the aggregate has an empty `selected_threats` list too, not only empty sub-record lists.
- Identifiers without a numeric ordinal are placed wherever the comparator happens to leave them. The model fixes one such placement: a NaN comparison never moves an identifier forward.

## Model

| member | source | states |
|---|---|---|
| Aggregator.CombinedDetails | app.js:117-147 | the nested loops over the selected ids and each entry's objects and implementations return exactly `Combine(selectedIds, data)` |
| Aggregator.Combine | app.js:117-147 | no catalog gives three empty lists; with a catalog, `selected_threats` is the input list verbatim; an empty selection gives no objects and no implementations |
| Aggregator.AddAllAbsent | app.js:126-138 | one `forEach` that stores only records whose id is absent leaves the table holding the first-writer-wins de-duplication of everything seen so far |
| Aggregator.RecordTable.Put | app.js:128-130 | storing a record under a new id keeps the table well formed and appends the record to `Object.values` order |
| Aggregator.RecordTable.Values | app.js:144-145 | `Object.values` lists, in key insertion order, the record stored under each key, so the listed ids are exactly the keys |
| Aggregator.RecordTable.Has | app.js:128 | `table[id]` is truthy iff one of the records `Object.values` lists carries that id |
| Catalog.Part | app.js:126-133 | `?.forEach` over an entry's objects or implementations visits the list as given, and a missing list visits nothing |
| Aggregator.EmptyTable | app.js:121-122 | the fresh dictionary is well formed and lists no values |
| Aggregator.DedupSnoc | app.js:128-130 | reading one more record appends it iff no kept record carries its id, and keeps the table as it is otherwise |
| Aggregator.Dedup | app.js:126-138 | the insert-if-absent pass never stores more records than it reads; `AggregateProperties.DedupIsFirstOccurrences` pins the result down exactly, as the records at the first position of their id, in input order |
| AggregateProperties.ContributedAppend | app.js:124-133 | the records `Aggregator.Contributed` visits for a selection split into those of its two halves: selected ids are visited in order |
| AggregateProperties.ContributedFrom | app.js:124-133 | every record `Aggregator.Contributed` visits belongs to the list of a selected id that is in the catalog, so unknown ids contribute nothing |
| AggregateProperties.ContributedCovers | app.js:124-133 | every record in the list of a selected, known entry is visited by `Aggregator.Contributed` |
| AggregateProperties.DedupFromInput | app.js:126-138 | every kept record is one of the contributed records; nothing is merged or invented |
| AggregateProperties.DedupCoverage | app.js:126-138 | an id is kept iff some contributed record carries it |
| AggregateProperties.DedupDistinct | app.js:126-138 | no two kept records share an id |
| AggregateProperties.DedupIsFirstOccurrences | app.js:126-145 | the result is exactly the records at the first position of their id, in input order: the earliest record wins and the output is in first-insertion order |
| AggregateProperties.DedupKeepsFirst | app.js:128-130 | the first record carrying an id is kept |
| AggregateProperties.AggregateIdsUnique | app.js:121-145 | each object id and each implementation id appears at most once in the aggregate |
| AggregateProperties.AggregateProvenance | app.js:124-140 | every returned record comes from a selected id present in the catalog; unknown ids contribute nothing and a missing list counts as empty |
| AggregateProperties.AggregateCoverage | app.js:124-140 | every record id contributed by a selected, known entry appears in the aggregate |
| AggregateProperties.AggregateFirstContributorWins | app.js:124-140 | the record kept for an id is the one from the earliest selected entry carrying it, and within that entry the first in declaration order |
| AggregateProperties.AggregateIdsIgnoreSelectionOrder | app.js:124-140 | which ids appear depends only on which threats are selected, not on their order or repetition |
| AggregateProperties.SelectionOrderDecidesWinner | app.js:117-147 | two threats contributing object "O1" with different names: selecting T.1 then T.2 keeps T.1's "O1", selecting T.2 then T.1 keeps T.2's |
| Listing.UpToDot | app.js:51 | the segment is a dot-free prefix of the text after the first dot that runs up to the next dot or to the end |
| Listing.SecondSegment | app.js:51 | `split(".")[1]` is undefined exactly when the identifier has no dot |
| Listing.DigitPrefix | app.js:51 | `parseInt` reads the longest prefix made only of decimal digits: it ends at the end of the text or before a non-digit |
| Listing.ParseInt | app.js:51 | text that is empty or starts with neither a digit nor a sign is NaN; text that starts with a digit is a non-negative number; a negative result needs a leading '-' |
| Listing.Ordinal | app.js:51 | an identifier without a '.' has no ordinal (NaN); `ListingProperties.OrdinalOfWellFormedId` gives the ordinal of a well-formed identifier |
| ListingProperties.BeforeIsStrictOrder | app.js:53 | the comparator's "`numA - numB` is negative" (`Listing.Before`) is irreflexive, asymmetric, transitive and total on numeric keys, and a NaN key is never before or after anything |
| Listing.Decimal | app.js:51 | the decimal text of a number is a non-empty digit string |
| Listing.Insert | app.js:50-54 | the insertion step adds exactly the inserted identifier (multiset) |
| Listing.SortBy | app.js:50-54 | the sort returns a permutation of its input |
| Listing.SortedThreats | app.js:47-55 | no catalog gives `[]`; otherwise a permutation of the catalog's keys |
| ListingProperties.DecimalRoundTrip | app.js:51 | reading back the decimal text of `n` gives `n` |
| ListingProperties.OrdinalOfWellFormedId | app.js:51-52 | the ordinal of `<prefix>.<n>` is `n` |
| ListingProperties.InsertKeepsSorted | app.js:50-54 | inserting a well-formed identifier into a sorted listing keeps it sorted |
| ListingProperties.SortIsSorted | app.js:50-54 | sorting well-formed identifiers yields a listing non-decreasing by ordinal |
| ListingProperties.SortedThreatsOrdered | app.js:47-55 | when every key has a numeric ordinal, the listing is non-decreasing by ordinal |
| ListingProperties.SortedThreatsListsCatalog | app.js:50 | the listing names exactly the catalog's entries |
| ListingProperties.NumericNotLexicographic | app.js:50-54 | "T.10", "T.2", "T.1" are listed as "T.1", "T.2", "T.10" |
| Selection.Without | app.js:87 | deleting an id removes exactly that id and keeps the set duplicate-free; a non-member leaves the selection as it is, and a member's one occurrence is cut out with every other id kept in its order |
| Selection.Toggled | app.js:86-90 | toggling flips the membership of the id and leaves every other id's membership unchanged; a new id is appended at the end, and a member is cut out with the order of the rest kept |
| Selection.ShowDisabledFor | app.js:231 | the button is disabled iff no id is selected |
| Selection.Flipped | app.js:13 | the theme switch always changes the theme |
| Selection.Session.constructor | app.js:1-5 | the session starts with an empty selection and the stored theme, defaulting to dark |
| Selection.Session.UpdateShowButton | app.js:228-233 | the button is disabled iff the selection is empty |
| Selection.Session.ToggleThreat | app.js:85-100 | the selection becomes `Toggled(old selection, id)`, stays duplicate-free, and the button is disabled iff it is empty |
| Selection.Session.ClearSelection | app.js:235-243 | the selection is empty, the button disabled, and the panel back to its prompt |
| Selection.Session.LoadSelected | app.js:102-115 | an empty selection shows the "select at least one" error and aggregates nothing; otherwise the panel shows the aggregate of the selection in insertion order |
| Selection.Session.ToggleTheme | app.js:12-17 | the theme flips and nothing else changes |
| SelectionProperties.ToggledKeepsNoDuplicates | app.js:85-90 | toggling keeps the selection a set |
| SelectionProperties.WithoutAppended | app.js:87-89 | deleting a just-added id restores the previous selection |
| SelectionProperties.ToggleTwiceRestoresMembership | app.js:85-90 | toggling the same id twice restores every id's membership |
| SelectionProperties.ToggleTwice | app.js:85-90 | adding then removing an id restores the selection exactly; removing then re-adding moves it to the end |
| SelectionProperties.FlipTwice | app.js:13 | switching the theme twice restores it |
| DetailsSearch.LowerChar | app.js:249-258 | a lower-cased character is never a capital, and a character is left unchanged iff it is not a capital |
| DetailsSearch.Lower | app.js:249 | lower-casing keeps the length of the text, leaves no capital, and changes exactly the characters that are capitals |
| DetailsSearchProperties.LowerCharLatinTable | app.js:249-258 | each Latin capital A-Z becomes its own small letter a-z |
| DetailsSearchProperties.LowerCharCyrillicTable | app.js:249-258 | each Cyrillic capital А-Я, Ё included, becomes its own small letter а-я, ё |
| DetailsSearch.Includes | app.js:259 | an occurrence needs the query to be no longer than the text, and the empty query occurs in every text; `DetailsSearchProperties.IncludesIffOccursAt` characterises it fully |
| DetailsSearch.Matches | app.js:249-259 | a matching item's text is at least as long as the query, and the empty query matches every item |
| DetailsSearch.DetailsView.constructor | app.js:149-152 | a freshly rendered panel shows every item and no marker |
| DetailsSearch.DetailsView.Filter | app.js:248-275 | with a non-empty selection an item is visible iff its lower-cased text contains the lower-cased query, and the marker is present iff the query is non-empty and nothing is visible; an empty query shows everything and removes the marker; a second marker is never created; with an empty selection nothing changes |
| DetailsSearchProperties.IncludesIffOccursAt | app.js:259 | `includes` holds iff the query stands at some offset of the text |
| DetailsSearchProperties.EmptyQueryMatchesEverything | app.js:259 | the empty query matches every item |
| DetailsSearchProperties.LowerIdempotent | app.js:249 | lower-casing twice is lower-casing once |
| DetailsSearchProperties.MatchIgnoresQueryCase | app.js:249-259 | a query and its lower-cased form match the same items |
| DetailsSearchProperties.UpperCaseQueryMatches | app.js:249-259 | "RISK" matches an item reading "risk_level: high" |

## Left out

- Loading the catalog with `fetch` and `response.json()`, and its error path (app.js:29-45), is network I/O. The catalog enters the model already loaded, as `Some(catalog)`, or absent, as `None`.
- `loadThreatsList` and `renderThreatsList` (app.js:57-83) build the list's buttons. `renderThreatsDetails` (app.js:149-226) builds the details HTML. `showLoading` and `showError` (app.js:279-291) write status markup. `initTheme` and `updateThemeButton` (app.js:7-27), the `selected` class on buttons (app.js:92-97, 237-239) and `init` (app.js:293-310) are DOM wiring too. None of this is modelled. The details panel is an abstract `Details` value, and each search item is an abstract text.
- `localStorage` reads and writes and the `data-theme` attribute (app.js:3, 14-15) are browser storage. The stored theme is a constructor parameter. A stored value other than "dark" or "light" is not modelled.
- The markup that gives the "show selected" button its initial `disabled` state is not part of this model. It is a constructor parameter. The checks for missing elements (app.js:95, 230, 247) are not modelled; the elements are assumed present.
- The `try`/`catch` around the aggregator (app.js:108-114) is not modelled, because the model's aggregator cannot throw.
- Listing.ParseInt: leading whitespace and the `0x` hexadecimal prefix that `parseInt` also accepts are not modelled. Only an optional sign followed by decimal digits is.
- Listing.ParseInt: ordinals are exact, unbounded integers, while JavaScript's are doubles. An ordinal above 2^53 is rounded there, so two distinct large ordinals can compare equal and keep their catalog order where the model orders them. A digit run past about 1e308 is `Infinity` there, and `Infinity - Infinity` is NaN. Neither is modelled.
- ListingProperties.OrdinalOfWellFormedId: the ordinal of `<prefix>.<n>` is `n` exactly. In app.js this holds only for `n` up to 2^53, for the reason given on the ParseInt line. The same bound applies to ListingProperties.DecimalRoundTrip read as a statement about `parseInt`.
- Listing.SortBy: the sort is stable by construction: an identifier is never moved ahead of an equal one. No lemma states this stability. For identifiers without a numeric ordinal the JavaScript comparator is inconsistent; the model fixes one placement, and sortedness is proved only for well-formed identifiers.
- Aggregator.RecordTable.Values: `Object.values` lists integer-like keys in numeric order ahead of the others. The model assumes sub-record ids are not integer-like, so the order is insertion order.
- Aggregator.RecordTable.Has: the truthiness test `!table[id]` is modelled as "id is not a key". Inherited prototype properties such as `constructor` are not modelled, and neither is a record without an `id`. The same holds for the catalog lookup `state.threatsData[threatId]`.
- DetailsSearch.LowerChar: only Latin A-Z and the Cyrillic capitals А-Я and Ё are lower-cased. The rest of Unicode case mapping is not modelled.
