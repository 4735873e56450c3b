# CaimanDB: models and proofs

CaimanDB is a document database. This project models the code between its command line and its
storage engine - the query path, the derived indexes, the crash protocols, the bulk-insert pool, the
auto-relation graph and the bounded buffers - and proves what that code keeps for every input, every
schedule and every crash point. `dafny verify dfyconfig.toml` checks all of it.

Code that changes state step by step is a class or a method with a loop here; code that only computes
is a function. The store is a map from keys to values, times are integers, numbers are reals (the
sort order adds NaN and the infinities, which texts such as "NaN" convert to), Go map iteration is
an arbitrary choice, a body under a mutex or in one transaction is one step, and a call into the
operating system may fail or stop half way. Host conversions (the text or number of a value, JSON decoding, lower-casing, hashes) are
function parameters, so the theorems hold for all of them.

| files | subject |
|---|---|
| UnionFind, CycleFinding, AutoRelGraph, AutoRelations | cycle search and bounded walk over auto-relations |
| Tokenizer, WhereAst, ClauseMeaning, WhereRoundTrip | command tokens, the WHERE parser, what a condition reads as, and the printer |
| QueryFilter, QueryMeaning, LegacyFilters, FilterList, FindPath, FindShortcut, FindLosses, SortDocs, StableSorting | matching, the two readings of a filter list and their parsers, FIND by columns, index or scan, ORDER BY |
| Keys, SecondaryIndex, FlexColumn | key layout and the two derived indexes |
| NestedFields | dotted paths and UPDATE |
| GeneratePool, InsertBatch | the elastic pool of INSERT ... GENERATE and its counters |
| KeyMigration, WalRedo, DirRename | RENAME BLOCK, redo, directory rename |
| RateLimiter, LimiterRaces, ChangeBus | request limiter, atomic and by lock sections, and change feed |
| Json, Options, Text | shared values |

## Where the code does less than its comments promise

Each of these is proved as an exact condition or a concrete run, not repaired.

- `String` of a WHERE tree (`parse/ast.go:101-122`) cannot be parsed back when a leaf is IS NULL,
  IS NOT NULL or BETWEEN over a list, nor when an operand's text is not one token that reads back:
  nil, strings with spaces or none, lists of several elements (`WhereRoundTrip.StringRoundTrip`).
- An index candidate goes by the literal field name and the text of its value: the text of nil for
  null, for an array and for every IN, and the dotted name itself for a path. As the only candidate it
  loses, once a document stores that text under that name, every matching document that does not
  (`FindPath.OneCandidate`, `FindPath.NilAlone`, `FindLosses.NilLosesADocument`,
  `FindLosses.DottedLosesADocument`); a count by index goes wrong the same way
  (`FindPath.CountIsExact`).
- The columnar shortcut that Find tries first answers a single equality by itself whenever it knows
  anything: it misses documents written before the process started and those the field cap cut, takes
  no notice of the shard, and returns documents that merely have a dotted name literally
  (`FindShortcuts.ShortcutExact`, `FindShortcuts.RestartHidesADocument`,
  `FindShortcuts.DottedReturnsAStranger`).
- A flat filter list with OR, as views keep it, goes through the same index fold as a conjunction.
  One of two equalities loses documents exactly when both lookups find some, they differ, and the better
  ranked one has a single id or shares one with the other (`FindPath.OrListComplete`,
  `FindLosses.OrListLosesADocument`); read left to right such a list also differs from the WHERE tree
  once an AND follows an OR (`LegacyFilters.ReadingsAgree`).
- The lookup of the empty text returns every document with the field, and Count answers with their
  number (`ops_delete.go:43-51`, `SecondaryIndexes.LookupExact`, `SecondaryIndexes.CountReaches`).
- Index keys are split on "/" although fields and values may contain it (`Keys.DecodesAllIds`).
- Inserting over a stored id can leave old entries in both indexes
  (`SecondaryIndexes.InsertAgrees`, `FlexColumn.Reinserted`).
- A rebuild indexes large documents that writes skip, and drops documents stored compressed, which it
  cannot decode (`SecondaryIndexes.RebuildRestores`); updates and deletes
  pass over those as well (`SecondaryIndexes.Block.Delete`).
- A text that converts to NaN makes the sort order inconsistent (`SortDocs.PreorderIffNoNaN`).
- The rate limiter looks up and creates a client in separate lock sections. Calls that do not overlap
  there are the atomic Allow; k that do can be granted k times the rate in their first window, no more
  (`LimiterRaces.Lockstep.Finish`, `LimiterRaces.SplitLimiter.BoundInFirstWindow`,
  `LimiterRaces.OverlappingFirstCalls`). A rate of zero or less still grants one call per window.
- The older filter parser takes a lone quote for a quoted string and fails on its missing inside; a
  command line reaches that exactly when it ends in a quote where a value is due
  (`FilterLists.LoneQuoteFails`, `FilterLists.LoneQuoteLine`).
- A publisher records and fans out in separate lock sections, so the replay buffer and the subscriber
  queues agree about order exactly as long as fan-outs follow the order of recording
  (`ChangeBuses.Publishers.Finish`, `ChangeBuses.TwoPublishers`).
- The count check after a copy cannot fail by itself (`DirRenaming.Disk.CopyAndVerify`), and a rename
  reported as done leaves files under the old name exactly when it went by copying and some file there
  could not be removed (`DirRenaming.Disk.RenameDB`, `DirRenaming.OldDirectoryStays`).

## Model

| member | source | states |
|---|---|---|
| `UnionFinding.UnionFind.Find` | internal/caimandb/relations_auto_graph.go:115-124 | terminates while path compression rewrites the parent map it is reading; registers an unseen name; returns the root of the name's class and leaves every class as it was |
| `UnionFinding.UnionFind.Union` | internal/caimandb/relations_auto_graph.go:129-136 | reports a cycle exactly when both names were already in one class; otherwise merges those two classes and no others |
| `UnionFinding.RootsAreComponents` | internal/caimandb/relations_auto_graph.go:115-136 | after any sequence of unions two names share a root exactly when the unioned pairs connect them by a path |
| `CycleFinding.FindCycles` | internal/caimandb/relations_auto_graph.go:142-155 | for every relation list, returns the closing relations of an order in which no relation was first seen after a later one, and their number is relations minus nodes plus connected components |
| `CycleFinding.KeptIsSpanningForest` | internal/caimandb/relations_auto_graph.go:138-155 | in any processing order the relations not returned are acyclic (dropping any one disconnects its ends), connect exactly what all relations connect, and nothing is lost or invented |
| `CycleFinding.SpanningIsForest` | internal/caimandb/relations_auto_graph.go:145-152 | every edge kept by the union-find pass is a bridge of the kept edges |
| `CycleFinding.SpanningConnects` | internal/caimandb/relations_auto_graph.go:145-152 | the kept edges have the connected components of all edges |
| `CycleFinding.CycleCount` | internal/caimandb/relations_auto_graph.go:145-155 | cycle count = relations - nodes + components, for every list |
| `CycleFinding.CycleCountIgnoresOrder` | internal/caimandb/relations_auto_graph.go:142-155 | an unstable sort among equal times may change which relations are returned, never how many |
| `CycleFinding.ComponentCount` | internal/caimandb/relations_auto_graph.go:110-136 | the classes left in the union-find are as many as the connected components |
| `AutoRelGraphs.BuildGraph` | internal/caimandb/relations_auto_graph.go:24-35 | the adjacency lists hold, per endpoint, exactly its relations in input order |
| `AutoRelGraphs.Neighbors` | internal/caimandb/relations_auto_graph.go:64-77 | returns exactly the nodes one relation away, each with that relation: from a user, unless IN is asked for, the documents it read; from a document, unless OUT is, its readers |
| `AutoRelGraphs.Bfs` | internal/caimandb/relations_auto_graph.go:82-107 | for every start, direction and depth bound (negative ones included): exactly the nodes reachable within the bound, each once, at its shortest distance, in non-decreasing depth, each hanging off an earlier node by a relation that leads to it; depth 1 holds, spelled out by direction, the documents the user read or the readers of the document, and nothing else |
| `AutoRelGraphs.FirstLevel` | internal/caimandb/relations_auto_graph.go:64-107 | the nodes one level below the start are its neighbours under the direction, and no others |
| `AutoRelGraphs.FinishedWalk` | internal/caimandb/relations_auto_graph.go:82-107 | a node list whose shallow nodes are all expanded has found exactly the nodes in range at shortest distances |
| `AutoRelGraphs.ChainIsWalk` | internal/caimandb/relations_auto_graph.go:51-60 | following parents back from a visited node spells a walk from the root, as long as the node is deep |
| `AutoRelGraphs.BfsCorollaries` | internal/caimandb/relations_auto_graph.go:64-107 | IN or OUT alone never passes depth 1, and the kind of a node is the root's exactly at even depth |
| `WhereAst.ParseWhere` | internal/caimandb/parse/ast.go:190-203 | ends on every token list and returns what the grammar function gives: tree and tokens used, or the same error |
| `WhereAst.WhereParser.ParseOr` | internal/caimandb/parse/ast.go:214-228 | the cursor loop computes the left-nested OR level of the grammar from the current position and leaves the cursor where the grammar stops |
| `WhereAst.WhereParser.ParseAnd` | internal/caimandb/parse/ast.go:230-244 | the same for the AND level |
| `WhereAst.WhereParser.ParseNot` | internal/caimandb/parse/ast.go:246-256 | the same for NOT chains |
| `WhereAst.WhereParser.ParsePrimary` | internal/caimandb/parse/ast.go:258-278 | the same for parentheses, stop words and errors |
| `WhereAst.WhereParser.ParseCondition` | internal/caimandb/parse/ast.go:286-338 | follows the grammar on which the round trip is proved; whatever the tokens, success is a leaf on the first of them (`id` for the token `_id`) with a known operator and single values or a list, never both |
| `WhereAst.WhereParser.ParseValue` | internal/caimandb/parse/ast.go:357-403 | the same for arrays, objects, BETWEEN's own AND, and quoted or bare values: success advances and keeps field and operator |
| `ClauseMeaning.ConditionReads` | internal/caimandb/parse/ast.go:286-403 | field, operator in any case and one plain or quoted operand read as a leaf on the field (`id` for `_id`) with the operand's value, as a one-element list for IN and NOT IN and as text for STARTS WITH and ENDS WITH |
| `ClauseMeaning.BetweenReads` | internal/caimandb/parse/ast.go:373-381 | BETWEEN takes two operands with an AND in between, in that order, and is an error without |
| `ClauseMeaning.BracketReads` | internal/caimandb/parse/ast.go:360-371 | a bracketed operand is a list, a braced one an object, or its own text when it does not decode |
| `ClauseMeaning.OtherwiseReads` | internal/caimandb/parse/ast.go:317-336 | null tests take no operand, an unknown operator makes an existence test, a missing value is an error |
| `ClauseMeaning.ConditionDue` | internal/caimandb/parse/ast.go:129-278 | where a condition is due, the words that belong to the rest of the command, flags, a closing parenthesis and the end of the line are errors; any other token but NOT and an opening parenthesis begins a condition |
| `ClauseMeaning.FirstField` | internal/caimandb/parse/ast.go:190-293 | a clause that opens with neither NOT nor a parenthesis begins with a leaf on its first token, `id` if that is `_id` |
| `WhereRoundTrip.RoundTrip` | internal/caimandb/parse/ast.go:190-403 | every well-formed tree, written fully parenthesised in the clause grammar and followed by anything not starting with AND or OR, parses back to itself and uses exactly its tokens |
| `WhereRoundTrip.StringRoundTrip` | internal/caimandb/parse/ast.go:101-122 | the tokens of String parse back to the tree, all of them used, exactly when no leaf is a null test or a BETWEEN over a list and every operand is written as one token that reads back; operands of several tokens or none included |
| `WhereRoundTrip.StringParses` | internal/caimandb/parse/ast.go:101-122 | inside any token list the String tokens of any other tree give an error, a stop at a stray token, a different leaf, or run past the clause |
| `WhereRoundTrip.SpacedStringFails` | internal/caimandb/parse/ast.go:101-122 | a string with a space, or a blank one, is told apart by its first token and never reads back |
| `WhereRoundTrip.ClauseKeeps` | internal/caimandb/parse/ast.go:214-244 | whatever a clause is read as begins with the leaves of its first operand |
| `WhereRoundTrip.PrintedParses` | internal/caimandb/parse/ast.go:246-278 | inside any token list, at any position, a printed tree is read back whole whatever follows it |
| `WhereRoundTrip.OperatorReads` | internal/caimandb/parse/ast.go:294-329 | one-, two- and three-word operators are read back whole, whatever follows |
| `QueryFilter.FlattenMeaning` | internal/caimandb/parse/ast.go:470-487 | flattening succeeds exactly on trees without OR and NOT, and the leaves' conjunction then is the tree's value |
| `Tokenizer.Tokenize` | internal/caimandb/parse/tokenizer.go:27-75 | the scan loop yields the tokens of the scanner automaton, for balanced and unbalanced input |
| `Tokenizer.TokensRead` | internal/caimandb/parse/tokenizer.go:42-73 | ordinary words, quoted texts and bracketed texts are read whole up to a blank or parenthesis, with the blanks and parentheses they hold; blanks are dropped and a parenthesis outside is a token of its own |
| `Tokenizer.TokenizeJoinStable` | internal/caimandb/parse/tokenizer.go:27-75 | splitting, joining with spaces and splitting again changes nothing, for every input |
| `Tokenizer.ScansToList` | internal/caimandb/parse/tokenizer.go:27-75 | every token is a parenthesis or a word no character of which splits, and all but the last end in the neutral state |
| `Tokenizer.JoinedScansBack` | internal/caimandb/parse/tokenizer.go:27-75 | any such token list, joined by spaces, scans back to itself |
| `Tokenizer.ViewQueryStable` | internal/caimandb/cmd_view.go:40-47 | for a command line as it arrives, trimmed (dsl_parser.go:22-26), VIEW CREATE re-splits its joined and trimmed tail into the same tokens exactly when the first of them does not begin with white space that Tokenize does not split at; the end is never touched |
| `Tokenizer.EndsLikeInput` | internal/caimandb/parse/tokenizer.go:27-75 | the last token ends with the last character of the input, unless that is white space |
| `QueryFilter.MatchesFilters` | internal/caimandb/query_filter.go:53-71 | the loop evaluates the list strictly left to right, ignores the first connective and accepts the empty list |
| `QueryMeaning.OrderOperators` | internal/caimandb/query_filter.go:105-188 | `>`, `<`, `>=`, `<=` go by the numbers unless both are zero and then by the texts; BETWEEN includes both bounds |
| `QueryMeaning.TextOperators` | internal/caimandb/query_filter.go:101-168 | equality, IN and their negations, STARTS and ENDS WITH, EXISTS and the null tests, each said on the texts and values; an unknown operator matches nothing |
| `QueryMeaning.PatternOperators` | internal/caimandb/query_filter.go:113-139 | LIKE by where its percent signs stand, and CONTAINS, on lower-cased texts |
| `QueryMeaning.NegatedPatterns` | internal/caimandb/query_filter.go:124-139 | NOT LIKE and NOT CONTAINS match exactly where LIKE and CONTAINS do not |
| `QueryMeaning.PathReaches` | internal/caimandb/nested_fields.go:43-71 | a path goes through objects by name and through an array into each of its objects, and nowhere else |
| `QueryMeaning.CountReached` | internal/caimandb/nested_fields.go:43-47 | a count field reaches the count of what its parentheses hold |
| `QueryMeaning.ReadsAgree` | internal/caimandb/nested_fields.go:12-71 | where a path leads through objects only, matching sees the one value that reading and writing by path see |
| `QueryMeaning.SelectedMeaning` | internal/caimandb/query_filter.go:20-99 | a condition asks any value its path reaches, or null if there is none; AND, OR and NOT select the common, the joint and the other documents of the shard |
| `QueryMeaning.ComparisonAnswer` | internal/caimandb/ops_find.go:100-400 | what Find answers to one undotted comparison no index is consulted for, whatever the index holds, on numbers, texts and values: `age > 30` gives exactly the documents of the shard whose age is above 30 |
| `LegacyFilters.ChainParses` | internal/caimandb/parse/ast.go:214-244 | the WHERE parser turns an unparenthesised chain of conditions into the tree that groups ANDs first |
| `LegacyFilters.TreeValue` | internal/caimandb/query_filter.go:31-51 | that tree's value is the disjunction of its AND groups |
| `LegacyFilters.ReadingsAgree` | internal/caimandb/query_filter.go:53-71 | left-to-right and precedence reading agree for every truth of the conditions exactly when no AND follows an OR |
| `LegacyFilters.TreeAndListAgree` | internal/caimandb/query_filter.go:26-71 | on documents, tree and flat list then select alike |
| `FilterLists.ParseFilters` | internal/caimandb/cmd_filters_util.go:65-342 | the cursor loop yields the list of the recursive reading: connectives set the logic of the next condition, stop words end it, an empty list is an error |
| `ClauseMeaning.ListGoesOn` | internal/caimandb/cmd_filters_util.go:65-342 | the older list ends at its stop words or the end of the line; a connective sets the logic of the next condition alone, and each condition read is appended |
| `ClauseMeaning.ListConditionReads` | internal/caimandb/cmd_filters_util.go:195-330 | the older parser reads field, operator and one plain or quoted operand as a filter on the field (`id` for `_id`), its value a one-element list for IN and a text for STARTS and ENDS WITH, with the logic given |
| `ClauseMeaning.ListBetweenReads` | internal/caimandb/cmd_filters_util.go:195-330 | BETWEEN takes both bounds in order, or, without an AND between them, a single value |
| `ClauseMeaning.ListBracketReads` | internal/caimandb/cmd_filters_util.go:195-330 | bracketed and braced operands make lists and objects |
| `FilterLists.LoneQuoteFails` | internal/caimandb/cmd_filters_util.go:195-200 | for every command line: reading its filters fails on a lone quote exactly when the last token is one and the line without it breaks off where the value of a known operator is expected |
| `FilterLists.LoneQuoteIsLast` | internal/caimandb/parse/tokenizer.go:27-75 | a token that is a single quote character can only be the last of its line |
| `FilterLists.LoneQuoteLine` | internal/caimandb/cmd_filters_util.go:195-200 | the line `a = '` does fail |
| `FilterLists.ChainToList` | internal/caimandb/cmd_filters_util.go:65-342 | on the tokens of a chain of conditions it is exactly the list of those conditions with the connective before each |
| `FilterLists.SameTokensSelectAlike` | internal/caimandb/cmd_filters_util.go:30-75 | read from the same tokens, the list and the WHERE tree consume alike and select the same documents when no AND follows an OR |
| `LegacyFilters.ListImpliesAll` | internal/caimandb/query_filter.go:53-71 | a flat list means the conjunction of its filters exactly when no later connective is OR |
| `FindPath.QueryOptimizer.UpdateIndexStats` | internal/caimandb/query_optimizer.go:41-58 | from then on every filter on the field ranks as measured, with that selectivity, and filters on other fields rank as before; uses are counted |
| `FindPath.QueryOptimizer.AnalyzeQuery` | internal/caimandb/query_optimizer.go:108-163 | loop and in-place sort deliver exactly the plan the next two rows describe |
| `FindPath.PlanIsRanked` | internal/caimandb/query_optimizer.go:135-145 | the plan is the stable sort of the eligible filters in filter order, repetitions included: measured ones first by selectivity, ties in filter order |
| `FindPath.PlanMembers` | internal/caimandb/query_optimizer.go:121-131 | the candidates are field and value text of every `=`, `==` and IN filter, and no others |
| `FindPath.PlanOrder` | internal/caimandb/query_optimizer.go:135-145 | of two candidates the one in front is on a measured field if the other is, and then of no greater selectivity |
| `FindPath.IntersectIds` | internal/caimandb/index_secondary.go:233-283 | keeps the first list's order and repetitions; never drops a common id, adds none from outside the first list, and is exact below the hashing threshold, whatever the hash |
| `FindPath.CandidateIds` | internal/caimandb/ops_find.go:133-174 | keeps every wanted id when no candidate hides one, or yields nothing, which means a scan; below the hashing threshold the ids are exactly those of the specified fold over index keys, without repetition when no id is read from two keys |
| `FindPath.Narrow` | internal/caimandb/ops_find.go:157-168 | an extra candidate that fails or finds nothing is skipped; otherwise no common id is lost and, below the hashing threshold, exactly the common ones survive |
| `FindPath.FetchAndRecheck` | internal/caimandb/ops_find.go:211-274 | exactly the fetched candidates that still match the whole query, none twice unless fetched twice |
| `FindPath.Scan` | internal/caimandb/ops_find.go:307-400 | exactly the stored documents that match, each once |
| `FindPath.Find` | internal/caimandb/ops_find.go:100-305 | behind the columnar shortcut: never returns a document that does not match; without an equality or IN it scans; below the hashing threshold the index route is taken exactly when the fold leaves an id and scanning is not preferred, and the answer is then the selected documents among those ids, else all selected; complete for any ranking, failed lookups and hash collisions when the query is a conjunction each of whose index candidates is an equality the index can answer over small documents, or has an empty lookup, as a dotted field usually does |
| `FindPath.UnheldIsEmpty` | internal/caimandb/index_secondary.go:147-164 | over an exact index a lookup is empty exactly when no document stores the text under that very name |
| `FindShortcuts.FindWithColumns` | internal/caimandb/ops_find.go:92-98 | the shortcut answers whenever the columnar index knows a stored id for a single equality, with exactly those ids; otherwise the routes behind it do |
| `FindShortcuts.ShortcutExact` | internal/caimandb/ops_find.go:92-98 | for an undotted equality on a text only scalars have, the shortcut's answer is the selected documents exactly when, of those the filter matches, the ones of the asked shard are the ones the index knows: written since the start and not short of the field by the cap |
| `FindShortcuts.ColumnsAreLiteral` | internal/caimandb/flexcolumn.go:300-318 | whatever the equality, it answers with the known documents that store the text under the literal field name |
| `FindShortcuts.RestartHidesADocument` | internal/caimandb/ops_find.go:92-98 | a run on which a document written before the restart is missing from the answer |
| `FindShortcuts.DottedReturnsAStranger` | internal/caimandb/ops_find.go:92-98 | a run on which `a.b = 1` answers with a document that does not match |
| `FindPath.FoldTwo` | internal/caimandb/ops_find.go:142-168 | two candidates leave the best lookup if it has at most one id or the other is empty, else the common ids |
| `FindPath.FoldThree` | internal/caimandb/ops_find.go:142-168 | of three candidates or more the first three alone count, each narrowing what is left while it is several ids; one that fails counts as empty |
| `FindPath.EqualityMeaning` | internal/caimandb/query_filter.go:82-106 | an undotted equality on a text only indexed scalars have matches exactly the documents with that index entry |
| `FindPath.SelectedMatchesFilter` | internal/caimandb/ops_find.go:133-139 | whatever a conjunctive query selects satisfies each filter used for index selection |
| `FindPath.EqualityIsHarmless` | internal/caimandb/ops_find.go:133-174 | such an equality's lookup misses no selected document, even over an index with stale keys |
| `FindPath.OneCandidate` | internal/caimandb/query_optimizer.go:121-131 | when one filter is the only candidate, whatever its value and however its field is written (null, arrays, IN, dotted paths), the answer is complete exactly when no document stores its text under that very name, or every selected one does |
| `FindPath.NilAlone` | internal/caimandb/query_optimizer.go:121-131 | asked alone, exactly when no document stores that text or every document showing an asked-for text (nil's own, for a missing field) stores it |
| `FindLosses.NilLosesADocument` | internal/caimandb/ops_find.go:133-174 | a filled block on which `a = null` loses a matching document, for any ranking and hash |
| `FindLosses.DottedLosesADocument` | internal/caimandb/ops_find.go:133-174 | a filled block on which `a.b = 1` loses its only match, because another document has the literal name |
| `FindPath.CountIsExact` | internal/caimandb/ops_delete.go:43-51 | a count by index of an undotted equality is the number of matching documents exactly when each of them holds the text as an indexed value |
| `FindPath.OrListComplete` | internal/caimandb/ops_find.go:133-190 | for a list `f OR g` of answerable equalities over an exact index, Find's answer is complete exactly when one lookup is empty, both are the same, or the better ranked one has several ids and none in common with the other |
| `FindLosses.OrListLosesADocument` | internal/caimandb/ops_find.go:133-174 | a filled block on which `a = 1 OR b = 2` loses a matching document, for any ranking and hash |
| `Keys.IndexKeyParts` | internal/caimandb/keys.go:20-22 | an index key splits on slashes into tag, block, and the parts of field, value and id |
| `Keys.DecodesSlashFree` | internal/caimandb/index_secondary.go:147-164 | the fifth part of a key with slash-free parts is the id |
| `Keys.DecodesAllIds` | internal/caimandb/index_secondary.go:147-164 | a field and value give every id back exactly when neither contains a slash |
| `Keys.KeysOfDifferentIds` | internal/caimandb/keys.go:20-22 | different slash-free ids never share an index key, whatever fields and values are |
| `SecondaryIndexes.ExpectedKeys` | internal/caimandb/index_secondary.go:31-70 | an index that agrees holds exactly one key for every boolean, number and text of a small document, oversized texts left out if so configured |
| `SecondaryIndexes.Block.BuildInto` | internal/caimandb/index_secondary.go:31-50 | adds exactly the document's index keys |
| `SecondaryIndexes.Block.DropFrom` | internal/caimandb/index_secondary.go:52-70 | removes exactly the document's index keys |
| `SecondaryIndexes.Block.InsertWithId` | internal/caimandb/ops_local.go:58-108 | stores the document with its id in the data and adds its keys if small; a fresh id keeps the index exact |
| `SecondaryIndexes.Block.Update` | internal/caimandb/ops_local.go:185-278 | rewrites exactly the matching documents of the shard stored uncompressed whose log write succeeds, keeping their ids and shards, and leaves the others as they are; an exact index stays exact when stored and encoded size fall on the same side of the threshold |
| `SecondaryIndexes.Block.CollectHits` | internal/caimandb/ops_local.go:343-403 | the scan pairs each matching document, once, with the index keys to remove |
| `SecondaryIndexes.Block.Delete` | internal/caimandb/ops_local.go:343-434 | in batches, removes exactly the matching documents of the shard stored plain whose delete is logged, and their keys; a finished run removes every matching, logged document exactly when none of them is stored compressed; it gets through exactly when every batch can be committed, and stops with a subset gone otherwise; an exact index stays exact either way |
| `SecondaryIndexes.Block.Run` | internal/caimandb/ops_local.go:97-434 | any run of fresh inserts, updates and deletes, cut short or not, keeps the index exact when inserts and updates measure alike, as without compression |
| `SecondaryIndexes.Block.Rebuild` | internal/caimandb/block_repair.go:12-69 | from any index state of the block: the keys of every document that decodes as stored; the index then agrees exactly when, among documents with keys, the small ones are those stored uncompressed |
| `SecondaryIndexes.Block.LookupByIndex` | internal/caimandb/index_secondary.go:147-164 | the prefix scan returns the fifth part of every key under the prefix, once per key |
| `SecondaryIndexes.Block.CountByIndex` | internal/caimandb/ops_delete.go:43-51 | a count of one equality is the number of those keys |
| `SecondaryIndexes.CountReaches` | internal/caimandb/ops_delete.go:43-51 | over an exact index with slash-free parts it is the number of documents holding the value, and for the empty text that of all documents with the field |
| `SecondaryIndexes.HitsDecodeOnce` | internal/caimandb/index_secondary.go:147-164 | with slash-free parts no document is read from two keys of one lookup, so none comes back twice |
| `SecondaryIndexes.LookupReaches` | internal/caimandb/index_secondary.go:147-164 | over an exact index with slash-free parts a lookup reaches the documents holding the value, and at the empty text every document with the field |
| `SecondaryIndexes.ExpectedRemove` | internal/caimandb/ops_local.go:343-434 | taking a document's keys out of an exact index leaves exactly the keys of the others, large documents and colliding texts included |
| `SecondaryIndexes.ExpectedPut` | internal/caimandb/ops_local.go:97-108 | putting a document adds exactly its keys to those of the other documents |
| `SecondaryIndexes.InsertAgrees` | internal/caimandb/ops_local.go:97-108 | inserting keeps the index exact exactly when the id is fresh or every key of the replaced document is stored again |
| `SecondaryIndexes.RebuildRestores` | internal/caimandb/block_repair.go:12-69 | a rebuild equals what inserts store exactly then: large documents stored plain gain keys, small ones stored compressed lose them |
| `SecondaryIndexes.LookupMissesNothing` | internal/caimandb/index_secondary.go:117-216 | over any index holding the expected keys a lookup misses no small document with the value |
| `SecondaryIndexes.LookupExact` | internal/caimandb/index_secondary.go:117-216 | it returns exactly the ids holding the value for every non-empty text, and for the empty one exactly when no small document has another text in the field |
| `NestedFields.PutGet` | internal/caimandb/nested_fields.go:12-85 | reading a path just written gives the value written, whatever was in the way |
| `NestedFields.PutPut` | internal/caimandb/nested_fields.go:73-85 | the second of two writes to a path wins |
| `NestedFields.GetPut` | internal/caimandb/nested_fields.go:12-85 | writing back what was read changes nothing exactly when the path was present |
| `NestedFields.Frame` | internal/caimandb/nested_fields.go:12-85 | a write leaves what every path reads that is neither above nor below it |
| `NestedFields.CommuteOnlyIncomparable` | internal/caimandb/nested_fields.go:73-85 | two writes commute on all documents and values exactly when neither path is a dotted prefix of the other |
| `NestedFields.ApplyCommute` | internal/caimandb/ops_update.go:44-68 | SET, INC, DEC, PUSH and PULL at incomparable paths commute |
| `NestedFields.OrderIrrelevant` | internal/caimandb/ops_update.go:44-68 | walking one operation map in any two orders gives one document when its paths are pairwise incomparable |
| `NestedFields.UpdateDeterministic` | internal/caimandb/ops_update.go:44-68 | a whole update then has one outcome, whatever order each of its five maps is walked in |
| `NestedFields.Document.ApplyStage` | internal/caimandb/ops_update.go:44-68 | one map is applied once per path, in some order of its keys |
| `NestedFields.Document.ApplyUpdateOp` | internal/caimandb/ops_update.go:44-68 | for every path apart from the others named: SET gives the value, then INC adds and DEC subtracts the amounts, then PUSH appends the item, then PULL leaves, in order, the items of another text; a path apart from all of them reads as before |
| `GeneratePools.GeneratePool.SpawnWorker` | internal/caimandb/cmd_insert.go:676-686 | adds a live worker unless the pool has finished, in which case nothing changes |
| `GeneratePools.GeneratePool.ClaimChunk` | internal/caimandb/cmd_insert.go:611-622 | hands out the next chunk, or sends the worker home when none is left |
| `GeneratePools.GeneratePool.FlushBatch` | internal/caimandb/cmd_insert.go:644-662 | each index of the worker's own chunk, and no other, is produced once more, and the counters grow by what InsertBatch reports for the chunk's documents |
| `GeneratePools.GeneratePool.ExitWorker` | internal/caimandb/cmd_insert.go:664-670 | the last exit closes the done channel, no other exit does |
| `GeneratePools.GeneratePool.Run` | internal/caimandb/cmd_insert.go:602-694 | the pool's invariant holds after any interleaving of spawns, claims, flushes and exits, and the channel is closed at most once; if every flush of the schedule works, none is recorded as failed |
| `GeneratePools.GeneratePool.ClosedMeansComplete` | internal/caimandb/cmd_insert.go:602-694 | when the channel is closed nobody is live or can start, every chunk was claimed and flushed, every index below n was produced exactly once, and with no failed mid-batch flush inserted + errors = n |
| `GeneratePools.GeneratePool.RunToTheEnd` | internal/caimandb/cmd_insert.go:602-694 | any schedule from the first spawn whose flushes all work and that closes the channel ends with inserted + errors = n |
| `GeneratePools.FlushAccounted` | internal/caimandb/cmd_insert.go:644-662 | finishing a chunk moves exactly its indices to the produced ones |
| `GeneratePools.ClaimAccounted` | internal/caimandb/cmd_insert.go:611-622 | claiming finishes no chunk and gives no chunk to two workers |
| `InsertBatches.CommitAll` | internal/caimandb/ops_insert.go:420-480 | reports exactly the tally of the piece: every document failed and none inserted if the log refuses it; else those set are inserted and the others failed, up to the first failing mid-batch flush, that flush's own included |
| `InsertBatches.PieceAddsUp` | internal/caimandb/ops_insert.go:420-480 | inserted, failed and unreported documents are all there are, and none is unreported unless a flush failed |
| `InsertBatches.InsertBatch` | internal/caimandb/ops_insert.go:120-200 | reports the summed tallies of the pieces; never more than the documents given, and all of them when no mid-batch flush fails, the ones set as inserted if the log takes every piece; all failed if it takes none |
| `InsertBatches.BatchAddsUp` | internal/caimandb/ops_insert.go:120-200 | over all pieces the counts fall short by exactly what failing flushes left unreported |
| `KeyMigration.BlockStore.WriteNew` | internal/caimandb/block_rename_migration.go:111-122 | a batch of copies, cut off anywhere, loses nothing and touches no old key |
| `KeyMigration.BlockStore.DeleteOld` | internal/caimandb/block_rename_migration.go:124-133 | deleting copied old keys, cut off anywhere, loses nothing |
| `KeyMigration.BlockStore.RewriteKeyPrefix` | internal/caimandb/block_rename_migration.go:77-157 | scan and chunked rewrite: nothing lost where it stops, no key left under the prefix when it gets through |
| `KeyMigration.BlockStore.RenameSingleKey` | internal/caimandb/block_rename_migration.go:163-196 | the meta key moves in one step or was never there |
| `KeyMigration.BlockStore.MigrateBlockKeyNames` | internal/caimandb/block_rename_migration.go:33-69 | at any crash point each original value is under its old or new key, bystanders are untouched and the outcome ahead is unchanged; if it gets through, the store is the renamed one: `d/from/x` is now `d/to/x`, `s/from/x` is `s/to/x` and `m/from` is `m/to`, with the same value for every x, and nothing is left under the old name; it does get through if two writes per document and index key and one for the meta key can be made |
| `KeyMigration.BlockStore.MigrateAcrossCrashes` | internal/caimandb/block_rename_migration.go:20-69 | after any number of crashed runs the first that gets through reaches the store of an uninterrupted migration, key by key as above; it gets through if the last run can make those writes |
| `KeyMigration.OwnedByOne` | internal/caimandb/keys.go:8-29 | slash-free distinct block names: no key belongs to both blocks |
| `KeyMigration.RenameBack` | internal/caimandb/block_rename_migration.go:115-117 | renaming a key is undone by renaming it back |
| `KeyMigration.CopyKept` | internal/caimandb/block_rename_migration.go:111-122 | one copied key loses nothing and leaves the final store unchanged |
| `KeyMigration.RemoveKept` | internal/caimandb/block_rename_migration.go:124-133 | deleting one copied old key loses nothing and leaves the final store unchanged |
| `KeyMigration.KeptTrans` | internal/caimandb/block_rename_migration.go:33-69 | being safe to stop and resume composes over steps and runs |
| `WalRedo.InsertDecides` | internal/caimandb/ops_local.go:97-99 | with an insert of the key in the log, what the key held before the replay makes no difference |
| `WalRedo.Engine.DeleteLocal` | internal/caimandb/ops_local.go:343-434 | a document survives exactly when the filters do not hold of it, with its data, and none is new |
| `WalRedo.Engine.Recover` | internal/caimandb/wal_recovery.go:42-95 | recovery applies exactly the intact, decodable entries in log order and counts them; after a last one that deletes, exactly the documents before it that its filters do not hold of are there, unchanged; after one that inserts, its document is |
| `WalRedo.ReplayByKey` | internal/caimandb/wal_recovery.go:42-95 | what a replay leaves under one key depends on that key's own history alone |
| `WalRedo.SeenAgain` | internal/caimandb/wal_recovery.go:42-95 | a key that has seen part of the log and then sees all of it ends as if it had seen it once |
| `WalRedo.RedoRestores` | internal/caimandb/wal_recovery.go:42-95 | replaying the whole log from any state in which every key saw some prefix of it gives the documents of the complete run |
| `WalRedo.RedoIdempotent` | internal/caimandb/wal_recovery.go:42-95 | replaying the log once more changes nothing |
| `FlexColumn.CapKeepsFirst` | internal/caimandb/flexcolumn.go:128-144 | booleans, numbers and texts are indexed; over the cap exactly as many as it allows, those with the lowest names |
| `FlexColumn.FlexBlock.Insert` | internal/caimandb/flexcolumn.go:202-237 | records the document under its capped scalar fields; every indexed field is counted once, and index and per-document fields stay in step exactly when the id is new or every old pair is recorded again |
| `FlexColumn.FlexBlock.RemoveDoc` | internal/caimandb/flexcolumn.go:178-199 | takes the id out of every value set, drops sets that empty, keeps index and fields in step |
| `FlexColumn.FlexBlock.Update` | internal/caimandb/flexcolumn.go:241-253 | replaces the recorded fields and keeps index and fields in step |
| `FlexColumn.FlexBlock.Delete` | internal/caimandb/flexcolumn.go:256-267 | forgets the id and keeps index and fields in step |
| `FlexColumn.Collection.Apply` | internal/caimandb/flexcolumn.go:202-267 | a write of a fresh id, a rewrite of a stored one, a delete or a restart keeps the index in step with the documents written since the process started |
| `FlexColumn.Collection.Run` | internal/caimandb/flexcolumn.go:202-267 | so does every run of them |
| `FlexColumn.Collection.QueryEquality` | internal/caimandb/flexcolumn.go:300-318 | after every run, an undotted equality on a text only scalars have returns exactly the matching documents that were written since the process started and kept the field under the cap; it is the scan's answer exactly when all matching ones are such |
| `FlexColumn.Reinserted` | internal/caimandb/flexcolumn.go:202-237 | re-inserting an indexed id stays exact exactly when its old field-value pairs all come back |
| `FlexColumn.QueryIsScan` | internal/caimandb/flexcolumn.go:300-318 | id by id: recorded under the value exactly when stored, matched by the filter, and not capped away |
| `SortDocs.PreorderIffNoNaN` | internal/caimandb/query_filter.go:171-188 | the mixed comparison is a total preorder on a set of values exactly when none is NaN or all others compare equal |
| `SortDocs.ComparatorIsStrictWeak` | internal/caimandb/sort_utils.go:10-35 | for any key list with DESC flips the comparator is a strict weak order when nothing converts to NaN |
| `SortDocs.SortDocuments` | internal/caimandb/sort_utils.go:10-35 | a permutation and the only stable rearrangement that is sorted: of any two documents the first key that differs decides, ascending by number, or by text where both numbers are zero, and the other way round under DESC |
| `SortDocs.KeyInOrder` | internal/caimandb/sort_utils.go:11-33 | where all earlier keys tie, key k stands in order between two documents the first of which need not go behind the other |
| `SortDocs.OnlyStableSort` | internal/caimandb/sort_utils.go:10-35 | stability and sortedness determine the result |
| `Text.TextOrder` | internal/caimandb/query_filter.go:185-187 | texts compare by the first code point that differs, a proper beginning first |
| `StableSorting.StableSortCorrect` | internal/caimandb/sort_utils.go:10-35 | a stable insertion order is sorted, a permutation, and keeps equivalent elements in arrival order, for any strict weak order |
| `StableSorting.SortedUnique` | internal/caimandb/sort_utils.go:10-35 | two sorted sequences that agree class by class are equal |
| `RateLimiting.RateLimiter.Allow` | internal/caimandb/ratelimit.go:64-95 | as one step: refuses exactly when a window is running and its tokens are spent; otherwise records the grant and the new bucket, and touches no other key |
| `RateLimiting.RateLimiter.Cleanup` | internal/caimandb/ratelimit.go:48-62 | forgets exactly the clients idle for more than two windows and no grant |
| `RateLimiting.RateLimiter.FewerThanTwiceTheRate` | internal/caimandb/ratelimit.go:64-95 | over every run of calls and cleanups, at most 2*max(rate, 1) - 1 grants of a key in any interval one window long |
| `RateLimiting.WindowBound` | internal/caimandb/ratelimit.go:64-95 | epochs of at most cap grants, a window apart and each beginning with a grant, put at most 2*cap - 1 grants into any window |
| `RateLimiting.BoundIsReached` | internal/caimandb/ratelimit.go:64-95 | for every rate a run with exactly 2*rate - 1 grants inside one window: no smaller bound holds |
| `LimiterRaces.SplitLimiter.Create` | internal/caimandb/ratelimit.go:69-79 | the second lock section of a call that found nothing: a new record replaces whatever the key has by now |
| `LimiterRaces.SplitLimiter.Spend` | internal/caimandb/ratelimit.go:81-94 | the second lock section of a call that found a record: resets or spends that record, replaced or forgotten though it may be |
| `LimiterRaces.SplitLimiter.BoundByRecords` | internal/caimandb/ratelimit.go:64-95 | over every schedule of lock sections and cleanups, a key gets at most 2*max(rate, 1) - 1 grants per window for each record ever created for it |
| `LimiterRaces.SplitLimiter.BoundInFirstWindow` | internal/caimandb/ratelimit.go:64-95 | and at most max(rate, 1) per record in the key's first window |
| `LimiterRaces.Lockstep.Begin` | internal/caimandb/ratelimit.go:64-67 | two first sections overlap exactly when another call for the key has looked up, found nothing and not yet created |
| `LimiterRaces.Lockstep.Finish` | internal/caimandb/ratelimit.go:69-94 | as long as none did, every second section is a whole call of the atomic limiter, with the same outcome |
| `LimiterRaces.Lockstep.Cleanup` | internal/caimandb/ratelimit.go:48-62 | the cleanups agree unless one takes a client a pending call holds |
| `LimiterRaces.Lockstep.ApartKeepsBound` | internal/caimandb/ratelimit.go:64-95 | calls that do not overlap keep the bound of the atomic limiter |
| `LimiterRaces.OverlappingFirstCalls` | internal/caimandb/ratelimit.go:64-79 | k overlapping first calls can yield k * rate grants in the first window: the bound by records is reached |
| `LimiterRaces.CreationsFirst` | internal/caimandb/ratelimit.go:64-79 | if they all create before anyone spends, k + rate - 1 |
| `ChangeBuses.EventRing.Add` | internal/caimandb/cluster/changestream.go:66-74 | after every add the ring is the last min(n, capacity) recorded events |
| `ChangeBuses.EventRing.Get` | internal/caimandb/cluster/changestream.go:79-81 | the i-th oldest of those events |
| `ChangeBuses.ChangeBus.Subscribe` | internal/caimandb/cluster/changestream.go:149-164 | a fresh id with an empty queue, owed the events published from here on |
| `ChangeBuses.ChangeBus.Unsubscribe` | internal/caimandb/cluster/changestream.go:168-176 | removes that subscription and its counter only; harmless when repeated |
| `ChangeBuses.ChangeBus.Receive` | internal/caimandb/cluster/changestream.go:149-164 | takes the oldest queued event and no other |
| `ChangeBuses.ChangeBus.FanOut` | internal/caimandb/cluster/changestream.go:231-253 | every matching subscriber is offered the event once, in any order: queued if there is room, else dropped and counted; conservation is kept |
| `ChangeBuses.ChangeBus.Publish` | internal/caimandb/cluster/changestream.go:217-254 | never waits; recorded and fanned out, except that bulk mode without subscribers forgets the event altogether |
| `ChangeBuses.ChangeBus.RecentEvents` | internal/caimandb/cluster/changestream.go:260-277 | the matching ones of the last 200 recorded events, oldest first |
| `ChangeBuses.EachOffered` | internal/caimandb/cluster/changestream.go:231-253 | offered an event, a subscriber that asked for its database and block, an empty name asking for all, queues it behind fewer than 256 others or counts it dropped; the others see nothing |
| `ChangeBuses.RecentMeaning` | internal/caimandb/cluster/changestream.go:260-277 | the recent events are, in order and as often, those of the last 200 recorded that the reader asked for |
| `ChangeBuses.OfferConserves` | internal/caimandb/cluster/changestream.go:237-253 | owed = received + queued + dropped, the queue stays within 256, and what is not dropped keeps its order |
| `ChangeBuses.ReceiveConserves` | internal/caimandb/cluster/changestream.go:149-164 | reading moves one event from queued to received and keeps that balance |
| `ChangeBuses.NothingDroppedIffComplete` | internal/caimandb/cluster/changestream.go:217-254 | the drop counter is zero exactly when a subscriber has, read or queued, every matching event since it subscribed, in order |
| `ChangeBuses.Publishers.Begin` | internal/caimandb/cluster/changestream.go:217-229 | records the event behind those still to be fanned out, unless bulk mode without subscribers drops it |
| `ChangeBuses.Publishers.Finish` | internal/caimandb/cluster/changestream.go:231-253 | fanning out any of them: in order so far, the events fanned out stay the recorded ones in recording order exactly when this is the event of the oldest; so always while no publisher records between another's two sections |
| `ChangeBuses.Publishers.QueuesFollowTheRing` | internal/caimandb/cluster/changestream.go:217-277 | as long as fan-outs follow the order of recording, what a subscriber has read and queued is part of the recorded events, in their order |
| `ChangeBuses.TwoPublishers` | internal/caimandb/cluster/changestream.go:226-253 | two publishers that record before either fans out: a subscriber that wants both and has room gets them in recording order exactly when the fan-outs are not swapped, or the events are equal |
| `DirRenaming.Disk.RenameWithRetries` | internal/caimandb/ops_rename.go:91-116 | succeeds exactly when one of eight attempts works after transient failures alone and no files are in the way; a success moves everything, a failure nothing |
| `DirRenaming.Disk.CopyFile` | internal/caimandb/ops_database.go:331-357 | touches only its own file, and leaves a prefix of the content when it fails after creating it |
| `DirRenaming.Disk.CopyFiles` | internal/caimandb/ops_database.go:288-329 | succeeds exactly when the directory can be made and each file walked to and copied in one of three attempts; then every file is there with its content, whatever a previous round left; no foreign path is added |
| `DirRenaming.Disk.VerifyCopy` | internal/caimandb/ops_rename.go:216-229 | compares the two file counts; a failing walk is an error |
| `DirRenaming.Disk.CopyAndVerify` | internal/caimandb/ops_rename.go:142-149 | succeeds exactly when the copy and both counts work; then the destination covers the old directory; it never fails by the comparison of the counts |
| `DirRenaming.Disk.RenameDirRobust` | internal/caimandb/ops_rename.go:76-175 | under every schedule of rename, copy, walk and removal failures: at every moment the old or the new path holds all files; success, exactly when one of eight renames or of three rounds of the copy works, means the new path does, error means the old one is untouched; a retried copy starts from a clean destination and a failure leaves none, as far as the leftovers can be removed; after a success the old directory is gone exactly when a rename worked or each of its files could be removed |
| `DirRenaming.Disk.RenameDB` | internal/caimandb/ops_database.go:173-206 | with the existence guards: success gives the new name exactly the files, error leaves the database as it was, and the old name is gone after a success exactly when a rename worked or the old directory could be removed |
| `DirRenaming.Disk.RemoveSource` | internal/caimandb/ops_rename.go:151-157 | removes the old directory exactly when every file of it can be removed, and some of it otherwise |
| `DirRenaming.OldDirectoryStays` | internal/caimandb/ops_rename.go:151-158 | for any files, a run that reports success and leaves the old directory behind |
| `DirRenaming.CoversExactly` | internal/caimandb/ops_rename.go:142-158 | a destination with all the files and no other path is the original directory |

## Left out

- HTTP servers, command line, user interface, drivers, metrics, logging, audit, help text and rendering: input and output only.
- Raft, Badger, the WAL file format, compression, Ristretto and the turbo batcher: boundaries, modelled as maps and logs.
- The document and index caches: an L1 copy is taken to equal the stored document. For the L2 index cache: writes do not invalidate it and it keeps truncated pages, so lookups are modelled uncached.
- OFFSET, LIMIT and page truncation in scans, lookups and Find: unpaged result sets are compared, since an offset skips documents before matching and a full lookup page may be cut.
- GROUP BY, computed SELECT items, sorting and paging inside the columnar shortcut: it is modelled for the single equalities it answers, unpaged.
- Update entries in redo, which are written as whole documents and read back as operations, and a crash inside recovery, whose replay appends to the log it reads.
- A concurrent insert during a logged delete: the delete is logged per document, outside the lock of the insert.
- Log records of other kinds, decompression, and a failing apply during recovery: such a record is one that does not decode here.
- Large, compressed and external documents: their stored size and whether they are compressed are parameters of the index model; redo and FLEX-COLUMN leave them out.
- Quarantine of corrupted documents and CheckBlock: counters and file moves.
- Block metadata counters (`DocCount`, `SizeBytes`): they are not derived from the documents as written.
- The watchdog of GENERATE, its rates and its second channel: workers are spawned at arbitrary moments instead.
- InsertBatches.CommitAll: models one document's preparation, write and flush outcome, not the cluster route, the post-commit events or the per-document log fallback.
- The recursive descent on real text: JSON decoding, number detection and the text of values are parameters.
- WhereRoundTrip.StringRoundTrip: an operand whose text leaves a quote or bracket open, which joins the tokens after it, is not modelled, since operands are lists of tokens; and a BETWEEN whose lower bound prints in braces and reads back alone while its upper bound is null is outside the equivalence.
- NestedFields.Document.ApplyUpdateOp: documents are values, so aliasing between nested Go maps and the nil slice that PULL may leave (marshalled as null) are not modelled.
- `findOrphans`, `degree` and the statistics text over relations: counting over the adjacency lists already proved.
- Relation aliases, transactions, BalanceShards, roles, passwords, tokens, tiering, search scoring: wrappers, heuristics, or guarantees that do not hold as written.
- RateLimiting.RateLimiter.Allow: one atomic step with non-decreasing times; the separate lock sections are those of `LimiterRaces.SplitLimiter`.
- FindPath.Find: the selectivity that a lookup feeds back into the ranking is not modelled; any ranking is covered. Beyond the hashing threshold the route is not specified, since collisions decide it.
- ChangeBuses.ChangeBus.FanOut: one step, although publishers share a read lock; per subscriber the sends are atomic, so orders between publishers vary as in `Publishers`. Event payloads and the wrap-around of the 64-bit subscriber id are not modelled.
- DirRenaming.Disk: regular files only, no empty directories or links, a source nobody writes to during the copy (the renaming registry keeps background jobs away), and no waiting for handles to close.
- The memory and metadata updates of RENAME DATABASE and RENAME BLOCK after the directory move, except the key rewrite.
