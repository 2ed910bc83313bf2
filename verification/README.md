# Search service core, modelled in Dafny

This project models the query-resolution core of a storefront search service:
`SearchService` turns the text a shopper typed into groups of indexed items, one
group per catalogue. It also enriches the result with the region's item rows,
the categories of those items and a "see also" hint. The model follows the Java
source branch by branch and proves properties of it.

The modelled parts are:

- **Keyboard-layout converter** (`Layout`). There are two parallel 45-character
  tables, one Cyrillic (ЙЦУКЕН) and one Latin (QWERTY). They give two maps.
  `Convert` picks one of them by the `.*\p{InCyrillic}.*` test and remaps the
  text character by character. This module also holds the digits test
  (`IsNumeric`) and the five punctuation marks that signal a mistyped layout
  (`HasErrorChar`).
- **Result grouper** (`Grouper`). This is `get`. It scans the candidate list
  for the last "exact" item and builds the catalogue-to-items map. The result is
  either the exact item alone or one group per catalogue. `ScanItems` is the
  loop as written; `Get` is its functional counterpart.
- **Staged resolver** (`Resolver`). This is `getAll`, modelled as a chain of
  stages: preparation, brand, type, catalogue, trim, the early exit, the
  combined query and the loose fallback. The state records every index request
  as a `Call(stage, query, retry)`. This lets the contracts talk about which
  requests were made, for instance "a converted retry outside the combined stage
  only happens when conversion is allowed".
- **Orchestration** (`Orchestrator`). This covers the SKU short-cut of
  `getResultFromText`, `getByName`, `getByItemId`, `getItemsByResult`,
  `extractBrandFromResult`, the hint and `getCategoriesByItems` with its
  de-duplication by catalogue code. It also covers `getSearchResult`, which
  chains them.
- **Java library semantics** (`JavaText`). This is `String.trim`,
  `split("\\s")`, `String.join`, `replace` of a literal, `startsWith`,
  `endsWith` and `Integer.toString`, written out over `seq<char>`.

Modelling decisions:

- **Collaborators.** The search index is the function
  `Env.index: (Query, nat) -> seq<IndexedItem>`. Each `Query` constructor names
  one repository method, and the `nat` is the page size (150, 10 or 1). The
  relational store is the three functions in `Store`. The model assumes nothing
  about what these return.
- **Exceptions.** A Java exception the code lets escape becomes
  `Err(IndexOutOfBounds)` or `Err(NullPointer)` in a `Result`. The exception
  that `getResultFromText` catches is modelled as the branch it takes after the
  catch.
- **HashMap order.** The order in which a `HashMap` iterates its key set is a
  parameter, `Env.hashOrder: set<string> -> seq<string>`. It is required
  (`ValidOrder`) to list every key exactly once. Because it is a function of the
  key set, two maps with the same keys iterate in the same order. Every property
  of the grouping is proved for all such orders.

The model follows the code, including these behaviours:

- **Brand stage.** The brand stage runs only when the text contains a space. It
  queries each `\s`-separated word. It never queries the whole text. Its retry
  converts the whole text, not the word. The brand is stored as the index
  returns it and is lower-cased only later, by `extractBrandFromResult`.
- **Type stage.** The per-word loop of the type stage does not stop at the
  first hit. Every hit removes its word, and the last hit sets the type.
- **Loose fallback retry.** The retry after an empty loose query is not another
  loose query. It is the typed-and-branded query with the converted original
  text.
- **Choice of conversion table.** The Cyrillic table is chosen only when the
  text holds a character of the Unicode block U+0400-U+04FF and no line
  terminator (`.` in the pattern does not match one).
- **Round trip.** Converting twice is not the identity on every table key.
  `"/"` becomes `"."` and then `"ю"`. `Layout.RoundTripFromLatin` states
  exactly when the round trip holds.
- **Text `" "`.** `" ".split("\\s")` is empty, so the text `" "` makes no brand
  request although it contains a space.

## Model

| member | source | states |
|---|---|---|
| Layout.BuildMap | src/main/java/ru/shop/backend/search/service/SearchService.java:40-43 | the keys of the map filled by the loop are exactly the characters of the key array |
| Layout.BuildMapAt | src/main/java/ru/shop/backend/search/service/SearchService.java:40-43 | when the key array has no repeats, the character at position i maps to the character at position i of the other array (no later `put` overwrites it) |
| Layout.TablesDistinct | src/main/java/ru/shop/backend/search/service/SearchService.java:35-38 | both arrays have 45 characters and neither repeats a character |
| Layout.SharedRows | src/main/java/ru/shop/backend/search/service/SearchService.java:35-38 | the last twelve positions (space, digits, hyphen) hold the same character in both arrays; the period is the Latin key under `ю` and the Cyrillic character under `/` |
| Layout.ErrorCharsAreLatinKeys | src/main/java/ru/shop/backend/search/service/SearchService.java:312-314 | each of the five layout-error marks is a character of the Latin array |
| Layout.TableEntries | src/main/java/ru/shop/backend/search/service/SearchService.java:35-43 | each Cyrillic-array character maps to the Latin character at the same position, and each Latin one to the Cyrillic one |
| Layout.TablesAreInverse | src/main/java/ru/shop/backend/search/service/SearchService.java:40-43 | each map undoes the other on its key set |
| Layout.AnyDotsIff | src/main/java/ru/shop/backend/search/service/SearchService.java:301 | `.*` matches a whole string exactly when it has no line terminator |
| Layout.CyrillicPatternIff | src/main/java/ru/shop/backend/search/service/SearchService.java:301 | the Cyrillic-to-Latin map is chosen exactly when the text has a character in U+0400-U+04FF and no line terminator |
| Layout.Convert | src/main/java/ru/shop/backend/search/service/SearchService.java:300-310 | the output has the input's length; a character that is a key of the chosen map is replaced by its value, any other character is kept |
| Layout.RoundTripFromCyrillic | src/main/java/ru/shop/backend/search/service/SearchService.java:300-310 | text made only of Cyrillic-table keys, with at least one Cyrillic character, is restored by converting twice |
| Layout.RoundTripFromLatin | src/main/java/ru/shop/backend/search/service/SearchService.java:300-310 | text made only of Latin-table keys is restored by converting twice if and only if some character becomes a Cyrillic letter or no `/` occurs |
| Layout.SlashDoesNotRoundTrip | src/main/java/ru/shop/backend/search/service/SearchService.java:35-38 | `"/"` converts to `"."`, which converts to `"ю"` |
| Layout.IsNumeric | src/main/java/ru/shop/backend/search/service/SearchService.java:145-150 | `isNumeric` holds exactly for a non-null, non-empty string of ASCII digits |
| Layout.DigitsIff | src/main/java/ru/shop/backend/search/service/SearchService.java:27 | the pattern `\d+` matches a whole string exactly when it is non-empty and all ASCII digits |
| Layout.HasErrorChar | src/main/java/ru/shop/backend/search/service/SearchService.java:312-314 | the five `contains` tests hold together exactly when some character of the text is one of `[`, `]`, `"`, `/`, `;` |
| Layout.LatinConversionClearsErrorChars | src/main/java/ru/shop/backend/search/service/SearchService.java:312-314 | converting text through the Latin-to-Cyrillic map leaves none of the five layout-error marks |
| Grouper.LastExactIndex | src/main/java/ru/shop/backend/search/service/SearchService.java:265-270 | the index found is exact and no later item is exact, or it is -1 and none is exact |
| Grouper.ItemsOf | src/main/java/ru/shop/backend/search/service/SearchService.java:271 | the items kept are exactly the list's items of that catalogue |
| Grouper.BuildGroupsStep | src/main/java/ru/shop/backend/search/service/SearchService.java:271 | one loop step appends the item to its catalogue's list, starting a new list for an unseen catalogue |
| Grouper.BuildGroupsKeys | src/main/java/ru/shop/backend/search/service/SearchService.java:265-272 | the keys of the map are exactly the catalogues in the list |
| Grouper.BuildGroupsPartitions | src/main/java/ru/shop/backend/search/service/SearchService.java:265-272 | each catalogue's list is the list's items of that catalogue, in list order |
| Grouper.GroupsNonEmpty | src/main/java/ru/shop/backend/search/service/SearchService.java:285 | every list in the map is non-empty, so `get(0)` on it cannot fail |
| Grouper.BrandOrNull | src/main/java/ru/shop/backend/search/service/SearchService.java:274-276 | the brand becomes null exactly when it is empty, and is kept otherwise |
| Grouper.OrderedKeysAreDistinct | src/main/java/ru/shop/backend/search/service/SearchService.java:284 | an iteration order of the key set lists each key once and only keys |
| Grouper.ScanItems | src/main/java/ru/shop/backend/search/service/SearchService.java:265-272 | the loop remembers an item exactly when some item is exact, and then it is the last exact one; the map it builds is the catalogue grouping |
| Grouper.Get | src/main/java/ru/shop/backend/search/service/SearchService.java:261-287 | the result is empty exactly when the list is; every group carries the brand, or null for an empty brand, and a non-empty item list |
| Grouper.GetExactLastWins | src/main/java/ru/shop/backend/search/service/SearchService.java:278-281 | when some item is exact, the result is one group holding only the last exact item, under its own catalogue |
| Grouper.GetPartition | src/main/java/ru/shop/backend/search/service/SearchService.java:283-286 | with no exact item there is one group per distinct catalogue; a group is in the result if and only if it is the full, ordered item list of its catalogue; an item is in a group if and only if it has that group's catalogue |
| Grouper.PartitionGroups | src/main/java/ru/shop/backend/search/service/SearchService.java:283-286 | the map-to-groups step gives as many groups as catalogues, without repeats, each one the full item list of its catalogue |
| Grouper.GroupsOfPartition | src/main/java/ru/shop/backend/search/service/SearchService.java:284-285 | a group built for one of the keys is exactly a group of the catalogue partition |
| Grouper.GetOrderIrrelevant | src/main/java/ru/shop/backend/search/service/SearchService.java:284 | the HashMap iteration order changes neither the number nor the set of groups |
| Resolver.Ask | src/main/java/ru/shop/backend/search/service/SearchService.java:179 | one index request appends one call to the trace, sets the list to that query's page and changes nothing else |
| Resolver.AskWithRetry | src/main/java/ru/shop/backend/search/service/SearchService.java:189-192 | the plain query is asked first; the converted query follows if and only if the first page is empty and the retry is allowed |
| Resolver.Prepare | src/main/java/ru/shop/backend/search/service/SearchService.java:162-175 | text with an error mark is converted up front and disables later conversion; otherwise conversion stays allowed exactly when the converted text has no error mark |
| Resolver.PrepareClearsErrorChars | src/main/java/ru/shop/backend/search/service/SearchService.java:169-172 | for non-Cyrillic text, the up-front conversion removes every error mark and disables later conversion |
| Resolver.BrandLoop | src/main/java/ru/shop/backend/search/service/SearchService.java:178-188 | the loop only appends brand-stage calls, leaves type and catalogue alone, and a changed brand is the first item's brand of a non-empty page |
| Resolver.BrandStep | src/main/java/ru/shop/backend/search/service/SearchService.java:177-188 | text without a space is left untouched; text with a space and at least one word makes a brand request |
| Resolver.BrandLoopFromIndex | src/main/java/ru/shop/backend/search/service/SearchService.java:178-188 | the brand after the loop is the one before it or the first item's brand of some non-empty index page |
| Resolver.FirstShortest | src/main/java/ru/shop/backend/search/service/SearchService.java:194 | the chosen item has a type of least length, and no earlier item's type is as short (`Stream.min` keeps the first minimum) |
| Resolver.TypeLoop | src/main/java/ru/shop/backend/search/service/SearchService.java:196-205 | the loop only appends type-stage calls; with words, its first request is the type query for the first word; brand and catalogue are kept; the type is the one before the loop or the shortest type of some non-empty index page |
| Resolver.TypeStep | src/main/java/ru/shop/backend/search/service/SearchService.java:189-206 | the type stage's first request is the type query for the whole text, only type-stage calls are appended, brand and catalogue are kept, and the type is the one before or the shortest type of some non-empty index page |
| Resolver.TypeFromIndex | src/main/java/ru/shop/backend/search/service/SearchService.java:177-216 | the type the facet stages settle on is the initial one or the shortest type of some non-empty index page |
| Resolver.CatalogueStep | src/main/java/ru/shop/backend/search/service/SearchService.java:207-215 | with a brand nothing happens; without one a request is made, and a new catalogue id is that of the first item of the non-empty page |
| Resolver.TrimText | src/main/java/ru/shop/backend/search/service/SearchService.java:216 | trimming the text changes neither the trace, the list nor the brand |
| Resolver.ChainCalls | src/main/java/ru/shop/backend/search/service/SearchService.java:177-215 | after the three facet stages, every gated retry was allowed, a type request was made, a catalogue request was made exactly when no brand was found, and nothing combined or loose was asked |
| Resolver.NarrowTrace | src/main/java/ru/shop/backend/search/service/SearchService.java:177-216 | as `ChainCalls` for the actual stages, and a brand request implies a space in the prepared text |
| Resolver.BrandFromIndex | src/main/java/ru/shop/backend/search/service/SearchService.java:177-216 | the brand the facet stages settle on is the initial one or the first item's brand of some non-empty index page |
| Resolver.CombinedQuery | src/main/java/ru/shop/backend/search/service/SearchService.java:220-246 | without a brand the query is by name and type-with-`?`, or by name and catalogue id when one was found; with a brand it is by name and brand when no type was found, else by name, brand and type-with-`?` |
| Resolver.Combined | src/main/java/ru/shop/backend/search/service/SearchService.java:219-247 | the text gains `?`, the type gains `?` unless a brand was found without a type, the brand is kept; the first request is the combined query for the `?` text; a second, converted request follows exactly when the first page is empty, whatever the conversion flag; the list is the last page asked for |
| Resolver.Fallback | src/main/java/ru/shop/backend/search/service/SearchService.java:249-257 | a non-empty list is left alone; on an empty list the first request is the loose query for the original text plus `?`, a retry is the typed-and-branded query for the converted original text plus `?`, the text is re-joined on single spaces when the original had a space, and the list stays the last page asked for |
| Resolver.ListedTrace | src/main/java/ru/shop/backend/search/service/SearchService.java:219-257 | after the combined and fallback stages, the list is the last page asked for, a combined request was made, and a fallback request was made exactly when the combined list was empty |
| Resolver.Resolve | src/main/java/ru/shop/backend/search/service/SearchService.java:160-258 | computes the resolver's final state and whether it ends at the early exit; its contract is carried by `ResolveTrace`, `BrandFromIndex`, `TypeFromIndex` and `GetAll` |
| Resolver.OutcomeKeepsCalls | src/main/java/ru/shop/backend/search/service/SearchService.java:216-258 | past the facet stages, the early exit and the combined and fallback stages keep the brand and the conversion flag, add no brand, type or catalogue request, and every converted retry outside the combined stage is still one the conversion flag allowed |
| Resolver.ResolveTrace | src/main/java/ru/shop/backend/search/service/SearchService.java:160-258 | across the whole resolution, a converted retry outside the combined stage happens only when neither the text nor its conversion has an error mark; the early exit is taken exactly when the trimmed text is empty and a brand was found; otherwise the final list is the last page asked for |
| Resolver.GetAll | src/main/java/ru/shop/backend/search/service/SearchService.java:160-259 | the resolver fails (index out of bounds) exactly at the early exit with an empty list; the early exit gives one group with no item list and the brand; otherwise the groups carry items and the brand, and there are none exactly when the final list is empty |
| Orchestrator.GetByName | src/main/java/ru/shop/backend/search/service/SearchService.java:289-293 | a name search gives unbranded, non-empty groups, and none exactly when the `.*num.*` page is empty |
| Orchestrator.GetByItemId | src/main/java/ru/shop/backend/search/service/SearchService.java:295-298 | an empty one-item page fails with index out of bounds; otherwise one group holds the whole page under its first item's catalogue and brand |
| Orchestrator.GetResultFromText | src/main/java/ru/shop/backend/search/service/SearchService.java:58-82 | the lookup fails (index out of bounds) exactly when the text is not all digits and the resolver, asked with the page size matching the request, ends at the early exit with an empty list |
| Orchestrator.NumericSkuHit | src/main/java/ru/shop/backend/search/service/SearchService.java:66-71 | digits whose first SKU match is in the index give exactly that item's group |
| Orchestrator.NumericSkuMiss | src/main/java/ru/shop/backend/search/service/SearchService.java:66-81 | digits with no SKU match, or whose item-id lookup fails, give the name search |
| Orchestrator.DispatchFailure | src/main/java/ru/shop/backend/search/service/SearchService.java:58-64 | a numeric query never fails; any other goes to the resolver with 150 items for the full page size and 10 otherwise |
| Orchestrator.AllItems | src/main/java/ru/shop/backend/search/service/SearchService.java:99-101 | flattening fails (null pointer) exactly when some group has no item list; otherwise it holds exactly the items of all groups |
| Orchestrator.GetItemsByResult | src/main/java/ru/shop/backend/search/service/SearchService.java:98-110 | the region lookup fails exactly when some group has no item list; otherwise it asks the store for the ids of the flattened groups |
| Orchestrator.ExtractBrand | src/main/java/ru/shop/backend/search/service/SearchService.java:84-96 | reads the first group's brand, lower-cased, or "" when there is none; its contract is carried by `ExtractBrandOfGet` |
| Orchestrator.ExtractBrandOfGet | src/main/java/ru/shop/backend/search/service/SearchService.java:84-96 | the brand read back from grouped results is the lower-cased resolved brand, or empty for an empty list or brand |
| Orchestrator.HelpText | src/main/java/ru/shop/backend/search/service/SearchService.java:51-54 | no groups give no hint; otherwise reading the first group's items fails exactly when it has none, and success gives one see-also hint |
| Orchestrator.HintIffResult | src/main/java/ru/shop/backend/search/service/SearchService.java:51-54 | for groups with items, a hint exists exactly when the result is non-empty, and it is the first item's type and the brand, trimmed |
| Orchestrator.DedupSnoc | src/main/java/ru/shop/backend/search/service/SearchService.java:128-132 | a further row is kept exactly when its code has not been seen |
| Orchestrator.DedupIsFirstOccurrences | src/main/java/ru/shop/backend/search/service/SearchService.java:123-132 | the de-duplication keeps exactly the first row of every catalogue code, in order |
| Orchestrator.FirstOccurrencesShape | src/main/java/ru/shop/backend/search/service/SearchService.java:128-132 | the rows kept come from the input, have distinct codes and cover every code of the input |
| Orchestrator.GetCategoriesByItems | src/main/java/ru/shop/backend/search/service/SearchService.java:122-143 | builds the category list for the items; its contract is carried by `CategoriesShape` and `DedupIsFirstOccurrences` |
| Orchestrator.CategoriesShape | src/main/java/ru/shop/backend/search/service/SearchService.java:122-143 | one category per distinct code, built from the first row with that code, with the `/cat/` link (plus `/brands/` and the brand when one is given), the parent link and the icon |
| Orchestrator.GetSearchResult | src/main/java/ru/shop/backend/search/service/SearchService.java:46-56 | a failed lookup, or a found group with no item list, makes the search fail; a successful search has at most one hint, and none exactly when the lookup found no groups |
| Orchestrator.BrandOnlyQueryFails | src/main/java/ru/shop/backend/search/service/SearchService.java:46-50 | text that the resolver answers at the early exit makes the whole search fail |
| Orchestrator.NothingFoundResolves | src/main/java/ru/shop/backend/search/service/SearchService.java:160-259 | an index that finds nothing makes the resolver return no groups, not fail |
| Orchestrator.NoBrandFromEmptyIndex | src/main/java/ru/shop/backend/search/service/SearchService.java:177-188 | an index that finds nothing yields no brand |
| Orchestrator.NothingFoundIsEmpty | src/main/java/ru/shop/backend/search/service/SearchService.java:46-56 | an index that finds nothing gives no items, no categories and no hint, whatever the text |

## Left out

- Spring wiring, the controller, its test and the repository interfaces are left out. What each repository query matches is abstract: it is a parameter of the model.
- `synchronized` on `getSearchResult` and `getResultFromTextSmall` is left out. The model is sequential.
- Logging (`log.error`) is left out. It changes no result.
- `mapToObjectItem` is not modelled. It decodes `BigInteger` columns and calls `toString` on database rows. The store hands back decoded `Item` values directly.
- `toLowerCase(Locale.ROOT)` is an abstract `Env.lower`. Unicode case mapping is out of scope.
- Null strings are not modelled, apart from `isNumeric`'s null check, a group's null item list and the null brand. Item names, types, brands and query text are always present.
- Exceptions thrown by the repositories themselves are left out. The one exception the code handles, from `getByItemId`, is modelled.
- The order of a `HashMap`'s key set is a parameter, `Env.hashOrder`, that lists every key once. It is a function of the key set alone, so two maps with the same keys iterate alike. Java does not promise this: the order can also depend on insertion history and capacity. Every property of the grouping is proved for every valid order, and `GetOrderIrrelevant` shows the order changes neither the number nor the set of groups.
- Resolver.FirstShortest: lengths are Dafny string lengths, which count Unicode scalar values, while `String::length` at lines 194 and 203 counts UTF-16 code units. When types contain characters outside the Basic Multilingual Plane, the model can choose a different shortest type from Java's.
- Resolver.BrandLoop: the contract does not say which query each word produces. `ResolveTrace` and `BrandLoopFromIndex` state the stage-level facts instead.
- Resolver.TypeLoop: the contract names only the first word's query and does not say which words are removed from the text. It keeps the facts later stages rely on.
- Resolver.ResolveTrace: that the list is the last page asked for is stated only past the early exit. At the early exit the model does not say which page the list holds.
- Layout.RoundTripFromCyrillic: the contract is one-way. It gives a sufficient condition for the round trip from Cyrillic text, not an exact one.
