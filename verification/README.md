# Corsa: planner, scanners, walks, executor and broadcast channel

A Dafny model of five parts of the repository in which a fast, mutable implementation stands for a
simple rule. Each part is modelled in the form it has there, and the simple rule is proved about it.

* **Checker batches** (`RequestKey`, `Checker`, `BatchGroups`, `Orchestrator`, `BatchPlan`,
  `CheckerBatch`, `BatchLaws`). `planCheckerBatch` rewrites queries into coalesced requests and routes each
  positional answer back. The planner is a class whose fields the methods reassign; its invariant says, after
  every query, which request owns which queries. `Checker.Meaning` says what a query asks for without any
  request, and `Checker.Serve` is an error-free server; the main theorem is that a batch answers every
  query with its meaning. `BatchLaws` says in plain values what is sent and what comes back.
* **Source scanners** (`Trivia`, `TriviaLaws`, `TopLevel`, `ScanLaws`, `Utf`, `SourceScanner`, `ApiClient`,
  `TypeArguments`, `TypeArgumentLaws`, `ClassScan`, `ClassDeclarations`, `ClassLaws`). `Trivia.Blank` is the
  first pass of a two-pass rule: a text with every string and comment blanked out, defined by tokens.
  `TopLevel` is the second: plain bracket counting, searching and splitting. Every one-pass scan is a method
  proved equal to it, in bytes on the Rust side and in string indices on the TypeScript side. The modules
  named after laws say what the two passes hide, show, find and cut, character by character and in counts.
* **Walks** (`Paths`, `TypeWalk`, `Ast`, `SideEffects`, `SideEffectLaws`, `Scopes`, `Traces`, `ValueMoves`,
  `PassedValues`, `ReferenceTracker`, `TrackerLaws`, `AliasCycles`, `AliasExample`, `StaticValue`,
  `StaticForms`, `OmittedElements`, `PatternMatcher`, `TemplateLaws`). The stack walk over base types against
  its recursion, the side-effect search against reachability, scope lookup against nesting, the reference
  tracker against a relation of moves a value can make and against evaluation, the constant folder against
  an evaluator with operators of its own, and replacement against positions.
* **Executor** (`Executor`). `block_on` as a state machine of atomic steps: one polling thread, any number of
  waker threads, the mutex, the condition variable with spurious returns, and the strong count.
* **Broadcast** (`Broadcast`). The subscriber list and queues as a class, beside a ghost log with a cursor
  for every receiver.

Two properties one would expect of the code are false, and for both the model has the input that
shows it and the exact condition.

* The constant folder gives `undefined` for an omitted array element where evaluation leaves a hole.
  `OmittedElements.FoldsExactly` says when a static value is right all the same.
* The reference tracker enters no variable twice on a chain, so a value that comes back to a variable
  under a longer path is not followed further. `AliasCycles.CompleteExactly` says that it misses
  something for some trace map exactly when the program has an alias cycle that takes a property.

## Model

| member | source | states |
|---|---|---|
| `CheckerBatch.ResolveCheckerBatch` | src/bindings/nodejs/corsa_node/ts/orchestrator.ts:60-70 | against any transport the plan made is a plan (every query local or owned by one request), a batch failure is passed on, and otherwise every item is what its own response makes of it; against a transport that reaches an error-free server for some checker, item `i` is exactly what query `i` means to that checker, which `BatchLaws` spells out |
| `CheckerBatch.BatchingPreservesMeaning` | src/bindings/nodejs/corsa_node/ts/orchestrator.ts:89-324 | deduplication, regrouping by file and shared direct requests do not change any answer: resolving the coalesced plan gives at each index the pointwise meaning of that query alone |
| `CheckerBatch.SharedAnswer` | src/bindings/nodejs/corsa_node/ts/orchestrator.ts:369-508 | the server's one response to a shared request, read back through a route, is the meaning of each query that shares it, whichever other queries put their positions or symbols into the request |
| `CheckerBatch.EndpointAnswers` | src/bindings/nodejs/corsa_node/ts/orchestrator.ts:110-129 | a direct request carries scope and arguments so that its endpoint's answer, after the query's transform, is the query's meaning (undefined parameters dropped, none confused) |
| `CheckerBatch.FailureIsConfined` | src/bindings/nodejs/corsa_node/ts/orchestrator.ts:287-323 | replacing response `r` by any other changes no query that request `r` does not own, and the queries it owns get what that response alone makes of them |
| `CheckerBatch.FallbackIsUnreachable` | src/bindings/nodejs/corsa_node/ts/orchestrator.ts:305-323 | with one response per request each query is local and owned by nobody, or owned by exactly one request whose response answers it |
| `CheckerBatch.AcceptedExactly` | src/bindings/nodejs/corsa_node/ts/checker_batch.ts:53-84 | a reply is accepted if and only if it is an object whose `responses` is a list of as many objects as there were requests, and then there is one response per request in order; each error is given exactly when its demand is the first to fail, the count error with both counts, and the item error with the first item that is no object |
| `CheckerBatch.PackRoundTrip` | src/bindings/nodejs/corsa_node/ts/checker_batch.ts:69-83 | unpacking the wire form of a list of responses gives back the list |
| `CheckerBatch.OneResponseEach` | src/bindings/nodejs/corsa_node/ts/checker_batch.ts:17-28 | whenever the batch call succeeds it returns exactly one response per request, also for no requests |
| `BatchLaws.SingleAnswer` | src/bindings/nodejs/corsa_node/ts/orchestrator.ts:60-512 | against an error-free server a query for one value gets, under its own key and kind, the very value the checker gives for it, and `null` only where the checker gives nothing |
| `BatchLaws.ListAnswer` | src/bindings/nodejs/corsa_node/ts/orchestrator.ts:60-424 | a query for a list gets a list as long as it asked, at each place the value the checker gives for that place alone |
| `BatchLaws.CollectionAnswer` | src/bindings/nodejs/corsa_node/ts/orchestrator.ts:205-239 | exports and type arguments are the checker's own list, the empty list for nothing and for `null`, and for type arguments also where the flags have neither bit 4 nor bit 32 |
| `BatchLaws.LocalExactly` | src/bindings/nodejs/corsa_node/ts/orchestrator.ts:131-239 | a query needs no request exactly when its list is empty or its flags are known and have neither of the two bits |
| `BatchLaws.LocalAnswer` | src/bindings/nodejs/corsa_node/ts/orchestrator.ts:60-70 | with no other queries nothing is sent and nothing can fail; local queries have the empty list whatever the transport does |
| `BatchLaws.DirectIs` | src/bindings/nodejs/corsa_node/ts/orchestrator.ts:175-284 | method and parameters of the request for every direct query, in order, absent options left out |
| `BatchLaws.SentFor` | src/bindings/nodejs/corsa_node/ts/orchestrator.ts:326-454 | a shared request asks under the right method and scope for exactly the positions or symbols that some query wants, each once |
| `BatchLaws.ErrorReachesAll` | src/bindings/nodejs/corsa_node/ts/orchestrator.ts:488-502 | an error in a response is the error of every query the request is for, under its own key and kind |
| `BatchLaws.DirectIsPassedOn` | src/bindings/nodejs/corsa_node/ts/orchestrator.ts:488-519 | a direct result without an error is passed on, `null` for nothing, the empty list where a list was asked for |
| `BatchLaws.SharedIsReadBySlot` | src/bindings/nodejs/corsa_node/ts/orchestrator.ts:388-424 | a position or symbol gets the element in its own slot of the request, `null` for a missing or empty slot, and the complaint with the method's name for anything but a list |
| `BatchLaws.ReplyIsRead` | src/bindings/nodejs/corsa_node/ts/checker_batch.ts:17-84 | what the transport throws is passed on, nothing is sent for no requests, and the reply and its items are read field by field: strings for method and error only, an empty error is none |
| `BatchPlan.Planner.constructor` | src/bindings/nodejs/corsa_node/ts/orchestrator.ts:89-104 | nothing is planned yet, and the planner's invariant holds |
| `BatchPlan.Planner.PlanQuery` | src/bindings/nodejs/corsa_node/ts/orchestrator.ts:131-285 | one more query of any of the sixteen kinds is sorted in and the invariant holds for it too |
| `BatchPlan.Planner.AddDirectRequest` | src/bindings/nodejs/corsa_node/ts/orchestrator.ts:110-129 | the query gets a route on the one request with its method and parameters, which is added if and only if there is none; every earlier query keeps its owner |
| `BatchPlan.AddPositionBatchQuery` | src/bindings/nodejs/corsa_node/ts/orchestrator.ts:326-351 | the file's group, made if needed, serves exactly the queries of that file so far, in order; every other group is left as it is, and the files stay in the order in which they were first named |
| `BatchGroups.AddToGroup` | src/bindings/nodejs/corsa_node/ts/orchestrator.ts:344-367 | the group's member list stays duplicate-free and remains the union of what its routes want |
| `BatchPlan.Planner.FlushPositionBatchGroups` | src/bindings/nodejs/corsa_node/ts/orchestrator.ts:369-427 | one request per file with a group, in the order in which the queries first name the files, each with the routes of its own queries |
| `BatchPlan.Planner.FlushSymbolTypeBatchGroup` | src/bindings/nodejs/corsa_node/ts/orchestrator.ts:429-486 | one request for the symbols if any query wants one, none otherwise |
| `BatchPlan.Planner.PlanCheckerBatch` | src/bindings/nodejs/corsa_node/ts/orchestrator.ts:89-324 | every query is local or owned by exactly one request, owners are distinct, every request is needed, and there are at most as many requests as queries |
| `BatchPlan.Planner.Resolve` | src/bindings/nodejs/corsa_node/ts/orchestrator.ts:305-323 | each query gets what its request's response makes of it, the fallback if that response is missing, and local queries keep their answer, whatever the number of responses |
| `BatchPlan.Deliver` | src/bindings/nodejs/corsa_node/ts/orchestrator.ts:308-312 | running all routes of one request writes the results of exactly the queries its owner owns |
| `BatchGroups.RunGroup` | src/bindings/nodejs/corsa_node/ts/orchestrator.ts:388-424 | every waiting query gets its own part of the positional answer, the error, or the complaint about a non-array, and nobody else's result is touched |
| `BatchGroups.ByMember` | src/bindings/nodejs/corsa_node/ts/orchestrator.ts:410-413 | each member of the group is mapped to the answer at its own place in the response |
| `Orchestrator.NoRequestTwice` | src/bindings/nodejs/corsa_node/ts/orchestrator.ts:110-129 | no two planned requests are the same call, no file is asked for twice by the same method, and there are never more requests than queries |
| `Orchestrator.OwnerFromRequest` | src/bindings/nodejs/corsa_node/ts/orchestrator.ts:376-446 | the owner of a request can be read off its method and parameters |
| `RequestKey.KeyDeterminesRequest` | src/bindings/nodejs/corsa_node/ts/orchestrator.ts:117-118 | two requests have the same key if and only if they have the same method and the same defined parameters, for all strings, escapes and numbers in them |
| `RequestKey.StringifyDetermines` | src/bindings/nodejs/corsa_node/ts/orchestrator.ts:118 | the JSON text of a parameter list determines the list |
| `SourceScanner.Scanner.Skip` | src/bindings/nodejs/corsa_node/src/api_client.rs:2869-2912 | one call passes over hidden characters only, or stays on a code character; the scanner goes on agreeing with the text with all strings and comments blanked out, and always stands on a character boundary |
| `SourceScanner.Scanner.Lex` | src/bindings/nodejs/corsa_node/src/api_client.rs:2870-2911 | the branches, on bytes, do what the mode-by-mode scanner does on characters, two-character jumps included |
| `Trivia.TracksStep` | src/bindings/nodejs/corsa_node/src/api_client.rs:2870-2911 | one step of a scanner that agrees with the blanked text keeps agreeing with it |
| `Trivia.SkipPeels` | src/bindings/nodejs/corsa_node/src/api_client.rs:2870-2911 | what the mode machine does one step at a time is what the token grammar (string, line comment, block comment, code) says about the whole rest of the text |
| `Trivia.BlankConcat` | src/bindings/nodejs/corsa_node/src/api_client.rs:2869-2912 | blanking a text piece by piece, the second with the mode the first ends in, is blanking the whole, unless the last character of the first piece and the first of the second are read together (an opener or terminator cut in two) |
| `Trivia.CutOpenerShows` | src/bindings/nodejs/corsa_node/src/api_client.rs:2869-2912 | and where an opener was cut in two the two readings do differ: the first half shows as code |
| `Trivia.CutAtCode` | src/bindings/nodejs/corsa_node/src/api_client.rs:2869-2912 | a fresh scanner started at any code character sees what the running one sees from there |
| `TriviaLaws.StringIsHidden` | src/bindings/nodejs/corsa_node/src/api_client.rs:2888-2909 | double quotes, single quotes and backquotes each hide everything up to the next such quote that no backslash precedes, and the reading goes on behind it |
| `TriviaLaws.OpenStringIsHidden` | src/bindings/nodejs/corsa_node/src/api_client.rs:2888-2909 | a string never closed hides the rest of the text |
| `TriviaLaws.LineIsHidden` | src/bindings/nodejs/corsa_node/src/api_client.rs:2875-2901 | a line comment is hidden up to and including the line feed or carriage return |
| `TriviaLaws.BlockIsHidden` | src/bindings/nodejs/corsa_node/src/api_client.rs:2881-2905 | a block comment is hidden up to and including the first terminator |
| `TriviaLaws.OpenBlockIsHidden` | src/bindings/nodejs/corsa_node/src/api_client.rs:2881-2905 | a block comment never terminated hides the rest of the text |
| `TriviaLaws.CodeShows` | src/bindings/nodejs/corsa_node/src/api_client.rs:2869-2912 | every other character shows unchanged, a slash that opens no comment included |
| `TriviaLaws.TextBegins` | src/bindings/nodejs/corsa_node/src/api_client.rs:2869-2912 | every text begins in one of these ways, so there is nothing else to say |
| `TopLevel.DepthIsUnclosedOpeners` | src/bindings/nodejs/corsa_node/src/api_client.rs:2047-2068 | a depth counter that saturates at zero holds the largest surplus of openers over closers of any stretch that ends here |
| `TopLevel.LeastIsFirst` | src/bindings/nodejs/corsa_node/src/api_client.rs:2039-2075 | the answer of a search is a hit with no hit before it, or there is none |
| `ScanLaws.NeedlesExactly` | src/bindings/nodejs/corsa_node/src/api_client.rs:2039-2105 | a needle, `<`, `(` or `{` counts where it shows and no stretch up to it shows more openers than closers of the kinds that matter; a bracket is never a needle |
| `ApiClient.FirstTopLevelIndexOfAny` | src/bindings/nodejs/corsa_node/src/api_client.rs:2039-2075 | equals the two-pass answer: blank strings and comments, then find the first needle outside all brackets |
| `ApiClient.FirstTopLevelOpeningAngle` | src/bindings/nodejs/corsa_node/src/api_client.rs:2077-2105 | equals the two-pass answer for the first `<` outside parentheses, brackets and braces |
| `ApiClient.FirstTopLevelOpeningParen` | src/bindings/nodejs/corsa_node/src/api_client.rs:2623-2651 | equals the two-pass answer for the first `(` outside other brackets |
| `ApiClient.MatchingAngleClose` | src/bindings/nodejs/corsa_node/src/api_client.rs:2280-2302 | returns the first `>` outside trivia at which the angles opened since `open` balance, and `None` off a character boundary or when there is none |
| `TopLevel.BalanceIsEnclosed` | src/bindings/nodejs/corsa_node/src/api_client.rs:2280-2302 | between the opening `<` and the `>` returned the angle depth is positive at every point |
| `ScanLaws.BalanceExactly` | src/bindings/nodejs/corsa_node/src/api_client.rs:2280-2302 | the angles balance where as many `>` as `<` have shown and never more |
| `ApiClient.SplitTopLevelRanges` | src/bindings/nodejs/corsa_node/src/api_client.rs:2112-2157 | the byte ranges are the pieces between all top-level delimiters of the blanked text |
| `ClassScan.SplitTopLevelRanges` | src/bindings/nodejs/corsa_oxlint/ts/checker.ts:2038-2077 | the TypeScript twin returns the same pieces as string indices |
| `TopLevel.SplitAtEveryCut` | src/bindings/nodejs/corsa_node/src/api_client.rs:2112-2157 | the ranges cover the text in order, and a position separates two of them if and only if it holds a delimiter outside trivia at depth zero |
| `ScanLaws.CutExactly` | src/bindings/nodejs/corsa_node/src/api_client.rs:2112-2157 | a text is cut exactly where the delimiter shows, is no bracket, and no stretch up to it shows more openers than closers of any of the four kinds |
| `TopLevel.SplitJoinRoundTrip` | src/bindings/nodejs/corsa_node/src/api_client.rs:2112-2157 | joining the pieces with the delimiter gives back the text |
| `TopLevel.SplitHomomorphism` | src/bindings/nodejs/corsa_node/src/api_client.rs:2112-2157 | if `a` ends outside trivia with all depths zero, splitting `a + delimiter + b` is splitting `a` and then `b` shifted |
| `TopLevel.PieceIsWhole` | src/bindings/nodejs/corsa_node/src/api_client.rs:2112-2157 | splitting any piece again yields that piece alone |
| `Utf.ByteIndexFromUtf16` | src/bindings/nodejs/corsa_node/src/api_client.rs:2187-2204 | the byte offset of the boundary at that UTF-16 offset, `None` if there is none; the checked addition never changes the answer |
| `Utf.Utf16IndexFromByte` | src/bindings/nodejs/corsa_node/src/api_client.rs:2206-2211 | the UTF-16 offset of that byte boundary, `None` off a boundary or past 32 bits |
| `Utf.Utf16ByteRange` | src/bindings/nodejs/corsa_node/src/api_client.rs:2177-2185 | present if and only if the range is ordered and both ends are boundaries, and then both ends are translated |
| `Utf.ConvertRoundTrip` | src/bindings/nodejs/corsa_node/src/api_client.rs:2187-2211 | the two translations undo each other |
| `Utf.ConvertIsMonotone` | src/bindings/nodejs/corsa_node/src/api_client.rs:2187-2211 | the translation is strictly increasing |
| `Utf.Utf16RefusedExactly` | src/bindings/nodejs/corsa_node/src/api_client.rs:2187-2204 | an offset is refused if and only if it lies inside a surrogate pair or past the end |
| `Utf.CharAtBoundary` | src/bindings/nodejs/corsa_node/src/api_client.rs:2407-2409 | reading at the byte offset of character `k` gives character `k`, and its width leads to the next |
| `Utf.WidthIsLeast` | src/bindings/nodejs/corsa_node/src/api_client.rs:2187-2211 | a character takes the fewest bytes of UTF-8 that can hold it, and one unit of UTF-16 or a pair |
| `TypeArguments.TypeArgumentPositionsForSourceRange` | src/bindings/nodejs/corsa_node/src/api_client.rs:2005-2037 | the positions are exactly the UTF-16 offsets at which the type arguments of the range begin, in increasing order; every slice on the way lies on character boundaries, and no position is dropped or repeated |
| `TypeArguments.ExpectedExactly` | src/bindings/nodejs/corsa_node/src/api_client.rs:2024-2036 | a number is reported if and only if it is the UTF-16 offset of the first non-whitespace character of one of the arguments between the brackets of that range |
| `TypeArgumentLaws.SpanExactly` | src/bindings/nodejs/corsa_node/src/api_client.rs:2012-2023 | the brackets are the first `<` behind the first top-level colon or equals sign, or from the start without one, and the `>` where the angles first balance |
| `TypeArguments.ExpectedIsOrdered` | src/bindings/nodejs/corsa_node/src/api_client.rs:2005-2037 | the positions strictly increase and lie strictly between start and end |
| `TypeArguments.LeadsExactly` | src/bindings/nodejs/corsa_node/src/api_client.rs:2024-2034 | there is a position for every top-level argument that is not blank, and no other |
| `TypeArguments.LeadIsFirst` | src/bindings/nodejs/corsa_node/src/api_client.rs:2159-2163 | it is the first character of the argument that is not whitespace |
| `TypeArguments.SpanIsNested` | src/bindings/nodejs/corsa_node/src/api_client.rs:2005-2037 | the arguments lie between a `<` and its matching `>` |
| `TypeArguments.PushUtf16Position` | src/bindings/nodejs/corsa_node/src/api_client.rs:2165-2175 | appends the translated position unless it is refused or already there |
| `TypeArguments.PushLeads` | src/bindings/nodejs/corsa_node/src/api_client.rs:2024-2034 | over all pieces, the positions pushed are those of the leading characters, none refused |
| `ClassScan.Scanner.Skip` | src/bindings/nodejs/corsa_oxlint/ts/checker.ts:2079-2128 | the closure-state scanner agrees with the blanked text, as its Rust twin |
| `ClassScan.FindKeywordOutsideTrivia` | src/bindings/nodejs/corsa_oxlint/ts/checker.ts:2007-2020 | the first place outside trivia where the keyword stands as a whole word, or -1 |
| `ClassScan.FindClassBodyOpen` | src/bindings/nodejs/corsa_oxlint/ts/checker.ts:1974-2005 | the first `{` outside trivia that no bracket opened since `start` encloses, or -1 |
| `ClassDeclarations.CollectImplementingClassDeclarations` | src/bindings/nodejs/corsa_oxlint/ts/checker.ts:1840-1874 | for every name: ambiguous if and only if captured at least twice, and listed with exactly those declarations, in source order, whose header has an `implements` keyword |
| `ClassDeclarations.NextInSlice` | src/bindings/nodejs/corsa_oxlint/ts/checker.ts:1845-1871 | the first keyword found in the remaining slice is the next keyword of one uninterrupted scan |
| `ClassDeclarations.StepPastKeyword` | src/bindings/nodejs/corsa_oxlint/ts/checker.ts:1845-1871 | restarting behind a keyword misses none |
| `ClassDeclarations.AllIsComplete` | src/bindings/nodejs/corsa_oxlint/ts/checker.ts:1840-1874 | the uninterrupted scan lists every hit, in order, once |
| `ClassDeclarations.HeaderImplements` | src/bindings/nodejs/corsa_oxlint/ts/checker.ts:1859-1861 | the text up to the class body, or to the end without one, is searched for the keyword |
| `ClassLaws.FoundExactly` | src/bindings/nodejs/corsa_oxlint/ts/checker.ts:2007-2036 | the keyword found is the first occurrence that begins outside strings and comments with no ASCII letter, digit, underscore or dollar sign on either side; -1 if there is none |
| `ClassLaws.ClassesExactly` | src/bindings/nodejs/corsa_oxlint/ts/checker.ts:1845-1872 | the declarations looked at are those behind every such occurrence of `class` |
| `ClassLaws.ImplementsExactly` | src/bindings/nodejs/corsa_oxlint/ts/checker.ts:1859-1861 | a class implements something if and only if the whole word `implements` stands before the brace that opens its body |
| `ClassLaws.CollectedExactly` | src/bindings/nodejs/corsa_oxlint/ts/checker.ts:1840-1874 | under a name there is one range for every implementing class of that name, from its keyword to the end of the text, in order; a name is ambiguous if and only if two classes have it |
| `TypeWalk.Session.ImplementedTypesFromTypeAndBases` | src/bindings/nodejs/corsa_oxlint/ts/checker.ts:1634-1680 | the explicit-stack walk ends on cyclic base graphs and returns the first own-implemented type of each identifier in the order of the recursive depth-first search; the cache holds only such results and is what changes |
| `TypeWalk.VisitStep` | src/bindings/nodejs/corsa_oxlint/ts/checker.ts:1653-1678 | popping a type and pushing its unseen bases in reverse leaves exactly what the recursion would still visit |
| `TypeWalk.PreorderConcat` | src/bindings/nodejs/corsa_oxlint/ts/checker.ts:1644-1679 | searching two lists in turn is searching their concatenation |
| `TypeWalk.PreorderUnseen` | src/bindings/nodejs/corsa_oxlint/ts/checker.ts:1670-1678 | not pushing bases already seen changes nothing |
| `TypeWalk.WalkReachesExactly` | src/bindings/nodejs/corsa_oxlint/ts/checker.ts:1644-1679 | the walk visits exactly the types reachable through bases |
| `TypeWalk.VisitedOnce` | src/bindings/nodejs/corsa_oxlint/ts/checker.ts:1644-1679 | no type is visited twice |
| `TypeWalk.ImplementedExactly` | src/bindings/nodejs/corsa_oxlint/ts/checker.ts:1649-1680 | an identifier is in the result if and only if some reachable type implements it, and then once |
| `TypeWalk.FirstsAre` | src/bindings/nodejs/corsa_oxlint/ts/checker.ts:1660-1668 | each identifier is represented by its first type, and these stand in the order in which the identifiers first occur |
| `TypeWalk.ImplementedInOrder` | src/bindings/nodejs/corsa_oxlint/ts/checker.ts:1649-1680 | each type of the result is the first to carry its identifier in the clauses of the visited types, and the results stand by visit and then by place in the clause |
| `SideEffects.HasSideEffect` | src/bindings/nodejs/corsa_oxlint/ts/ast_utils.ts:612-621 | true if and only if a side-effect node under the options can be reached through child keys without passing below an arrow function or function expression |
| `SideEffects.Search.HasSideEffectNode` | src/bindings/nodejs/corsa_oxlint/ts/ast_utils.ts:623-661 | ends on cyclic and shared graphs; true only with such a node below, and false only after every newly seen node was found harmless with all its children seen |
| `SideEffects.ClearedMeansNothing` | src/bindings/nodejs/corsa_oxlint/ts/ast_utils.ts:623-661 | a set of harmless nodes closed under children reaches no side effect |
| `SideEffectLaws.EffectReachedExactly` | src/bindings/nodejs/corsa_oxlint/ts/ast_utils.ts:612-661 | the answer is yes if and only if a path leads down from the node to a side effect, with children and effects said in the fields of the nodes |
| `SideEffectLaws.ChildrenExactly` | src/bindings/nodejs/corsa_oxlint/ts/ast_utils.ts:638-659 | the search goes down to the nodes in a field or in the array of a field of a configured key or, without configuration, of an own key but five; below function expressions to none |
| `SideEffectLaws.EffectExactly` | src/bindings/nodejs/corsa_oxlint/ts/ast_utils.ts:1454-1526 | the node types, operators and options that make a side effect |
| `Scopes.GetInnermostScope` | src/bindings/nodejs/corsa_oxlint/ts/ast_utils.ts:314-341 | on any scope tree the loops go down through the first children that contain the location; nothing for no scope, the scope itself for no range |
| `Scopes.DescentIsInnermost` | src/bindings/nodejs/corsa_oxlint/ts/ast_utils.ts:325-340 | on a well-nested tree the scope reached contains the location, or is the initial one, and every scope below the initial one that contains the location encloses it |
| `Scopes.InnermostIsUnique` | src/bindings/nodejs/corsa_oxlint/ts/ast_utils.ts:314-341 | there is only one such scope |
| `Scopes.FindVariable` | src/bindings/nodejs/corsa_oxlint/ts/ast_utils.ts:343-369 | the binding in the nearest scope around the starting one that declares the name, and null exactly when none does, no scope is given or the name is empty |
| `Scopes.EnclosingAreContaining` | src/bindings/nodejs/corsa_oxlint/ts/ast_utils.ts:343-369 | on a well-nested tree the scopes searched, from the initial one down, are the initial one and exactly those that contain the location |
| `Scopes.ChainGoesUp` | src/bindings/nodejs/corsa_oxlint/ts/ast_utils.ts:360-366 | the scopes searched are the starting one and, from each, its upper scope, to the last |
| `ReferenceTracker.Tracker.IterateGlobalReferences` | src/bindings/nodejs/corsa_oxlint/ts/ast_utils.ts:738-755 | the references found are exactly the uses derivable from an unmodified global that the trace map or the global object names list, through no variable already being walked and none twice; the variable stack is as before |
| `ReferenceTracker.Tracker.IterateVariableReferences` | src/bindings/nodejs/corsa_oxlint/ts/ast_utils.ts:850-879 | nothing for a variable on the stack, otherwise exactly what its read references lead to; the stack is restored, and the walk ends although aliases may be cyclic |
| `ReferenceTracker.Tracker.IteratePropertyReferences` | src/bindings/nodejs/corsa_oxlint/ts/ast_utils.ts:881-953 | exactly the references a value at this expression leads to by member access, call, construction, assignment and initialisation |
| `ReferenceTracker.Tracker.IterateLhsReferences` | src/bindings/nodejs/corsa_oxlint/ts/ast_utils.ts:955-993 | exactly the references a value stored into this pattern leads to by identifiers, object patterns and defaults |
| `ReferenceTracker.Tracker.ClimbLoop` | src/bindings/nodejs/corsa_oxlint/ts/ast_utils.ts:886-889 | the loop passes from a branch of a conditional, the last of a sequence, and anything in a logical expression or a wrapper to that expression, from nothing else, and ends where that is not the case |
| `PassedValues.PassesExactly` | src/bindings/nodejs/corsa_oxlint/ts/ast_utils.ts:1167-1190 | a node with a value passes through its parent if and only if evaluating the parent can give that value; a part without a value, as the type of an `as` expression, passes where only the parent's type is looked at |
| `ReferenceTracker.Tracker.FoundIsCorrect` | src/bindings/nodejs/corsa_oxlint/ts/ast_utils.ts:738-755 | every reference found carries the info stored in the root trace map at its path under its type, and calls and constructions are reported at nodes of these types |
| `TrackerLaws.FoundSays` | src/bindings/nodejs/corsa_oxlint/ts/ast_utils.ts:738-755 | what is found lies at a path of names of the trace map and carries what is stored there for reads, for calls at a call, or for constructions at a construction |
| `TrackerLaws.FoundStarts` | src/bindings/nodejs/corsa_oxlint/ts/ast_utils.ts:738-755 | every finding starts where a global that is neither declared nor written is read, listed in the trace map or among the global objects |
| `TrackerLaws.ReadIsFound` | src/bindings/nodejs/corsa_oxlint/ts/ast_utils.ts:738-744 | every read of such a global with a read in the trace map is found |
| `TrackerLaws.LedToIsFound` | src/bindings/nodejs/corsa_oxlint/ts/ast_utils.ts:850-879 | so is everything its reads lead to |
| `TrackerLaws.LedToFromObject` | src/bindings/nodejs/corsa_oxlint/ts/ast_utils.ts:746-754 | and everything the reads of a global object lead to |
| `TrackerLaws.ReadsHavePaths` | src/bindings/nodejs/corsa_oxlint/ts/ast_utils.ts:746-754 | a global object itself is never reported as read |
| `TrackerLaws.StandsForLeads` | src/bindings/nodejs/corsa_oxlint/ts/ast_utils.ts:886-889 | a value in a branch of a conditional, the last of a sequence, a logical expression or a wrapper leads to exactly what that expression leads to |
| `TrackerLaws.MemberIsFound` | src/bindings/nodejs/corsa_oxlint/ts/ast_utils.ts:895-913 | at a member access there is exactly the read of the property, if the trace map has one, and what the property leads to |
| `TrackerLaws.InvocationIsFound` | src/bindings/nodejs/corsa_oxlint/ts/ast_utils.ts:915-935 | at a call or construction there is exactly the call or construction, if it is of the value and the trace map has one |
| `ValueMoves.CarriesCorrectly` | src/bindings/nodejs/corsa_oxlint/ts/ast_utils.ts:850-993 | along any chain of moves path and trace map stay in step |
| `ValueMoves.ReportsVia` | src/bindings/nodejs/corsa_oxlint/ts/ast_utils.ts:850-993 | a reference is reported by the walk if and only if it is reported on some first move or after it |
| `AliasCycles.CompleteExactly` | src/bindings/nodejs/corsa_oxlint/ts/ast_utils.ts:850-993 | the walk finds, for every trace map, all references derivable by moves that may enter a variable any number of times, if and only if the program has no alias cycle, reached from an unmodified global, that takes a property |
| `AliasCycles.FoundExactly` | src/bindings/nodejs/corsa_oxlint/ts/ast_utils.ts:738-755 | whatever is found is derivable without the rule that breaks cycles, and without such a cycle whatever is derivable is found |
| `AliasCycles.DerivedIsFound` | src/bindings/nodejs/corsa_oxlint/ts/ast_utils.ts:856-859 | a chain that comes back to a variable without having taken a property can be cut short, so the rule that breaks cycles loses nothing |
| `AliasCycles.NamesAreTaken` | src/bindings/nodejs/corsa_oxlint/ts/ast_utils.ts:895-913 | the moves that take a property are the selections and destructurings |
| `AliasCycles.FoundPathsAreShort` | src/bindings/nodejs/corsa_oxlint/ts/ast_utils.ts:850-879 | the paths the walk finds are bounded by the size of the program, whatever the trace map |
| `AliasCycles.GrowthLosesReferences` | src/bindings/nodejs/corsa_oxlint/ts/ast_utils.ts:856-858 | for a program with such a cycle there is a trace map and a derivable reference the walk does not find |
| `AliasExample.AliasedReadIsLost` | src/bindings/nodejs/corsa_oxlint/ts/ast_utils.ts:856-858 | the failing input: in `let a = foo; a = a.bar; a.baz` the read of `foo.bar.baz` is derivable and not found |
| `StaticValue.FoldIsSound` | src/bindings/nodejs/corsa_oxlint/ts/ast_utils.ts:549-586 | a static value is the value evaluation gives, whenever that completes normally, no environment rebinds the three constants and no array literal omits an element; short-circuit, conditional, sequence, template, array, object and spread forms included |
| `StaticValue.ElementsAreSound` | src/bindings/nodejs/corsa_oxlint/ts/ast_utils.ts:1361-1378 | element by element the folded array is the evaluated one |
| `StaticValue.PropertiesAreSound` | src/bindings/nodejs/corsa_oxlint/ts/ast_utils.ts:1380-1402 | property by property, with computed keys and spreads, the folded object is the evaluated one |
| `StaticValue.BinaryAgrees` | src/bindings/nodejs/corsa_oxlint/ts/ast_utils.ts:1283-1333 | the operators of the folder give what those of the evaluator give, identity comparison of two objects included, since both are fresh on either side |
| `StaticValue.LastIsSound` | src/bindings/nodejs/corsa_oxlint/ts/ast_utils.ts:1404-1408 | dropping all but the last expression of a sequence keeps its value |
| `StaticForms.FoldsStaticForms` | src/bindings/nodejs/corsa_oxlint/ts/ast_utils.ts:549-586 | where evaluation completes there is a static value if and only if every part it comes to is of a supported form: the operators of the two tables, the three names, no spread in arrays, no accessors, only objects spread |
| `OmittedElements.FoldsExactly` | src/bindings/nodejs/corsa_oxlint/ts/ast_utils.ts:549-586 | a static value is the evaluated one if and only if no omitted element is in a position that becomes part of it: in nested arrays, values and spreads of objects that write no field twice, wrapped expressions, the chosen branch of conditional and logical expressions and the last of a sequence; only operands that arithmetic, comparison, templates and computed keys look into must omit nothing |
| `OmittedElements.ElementsFoldExactly` | src/bindings/nodejs/corsa_oxlint/ts/ast_utils.ts:1361-1378 | element by element, however deeply nested |
| `OmittedElements.PropertiesFoldExactly` | src/bindings/nodejs/corsa_oxlint/ts/ast_utils.ts:1380-1402 | property by property, spreads of arrays and objects included |
| `OmittedElements.ItemFieldsExactly` | src/bindings/nodejs/corsa_oxlint/ts/ast_utils.ts:1383-1389 | spreading an array tells a hole from `undefined` |
| `OmittedElements.ItemValues` | src/bindings/nodejs/corsa_oxlint/ts/ast_utils.ts:1383-1389 | every element of a spread array is copied under its index |
| `OmittedElements.OmittedElementIsUnsound` | src/bindings/nodejs/corsa_oxlint/ts/ast_utils.ts:1364-1367 | the failing input: `[,]` folds to an array with an `undefined` element and `{...[,]}` to an object with a field, where evaluation gives a hole and no field |
| `PatternMatcher.Matcher.ExecAll` | src/bindings/nodejs/corsa_oxlint/ts/ast_utils.ts:678-694 | the matches are the raw matches without the escaped ones, increasing and disjoint, whatever a consumer does to the shared `lastIndex` between two of them |
| `PatternMatcher.IsEscaped` | src/bindings/nodejs/corsa_oxlint/ts/ast_utils.ts:1545-1551 | true if and only if an odd number of backslashes precedes |
| `PatternMatcher.BackslashesAre` | src/bindings/nodejs/corsa_oxlint/ts/ast_utils.ts:1545-1551 | what is counted is the run of backslashes that ends right before the match |
| `PatternMatcher.UnescapedAre` | src/bindings/nodejs/corsa_oxlint/ts/ast_utils.ts:678-694 | a match is kept if and only if the matcher takes escaped ones or an even number of backslashes precedes it |
| `PatternMatcher.RawIsDisjoint` | src/bindings/nodejs/corsa_oxlint/ts/ast_utils.ts:687-693 | the raw matches increase, do not overlap and lie in the string |
| `PatternMatcher.RawIsComplete` | src/bindings/nodejs/corsa_oxlint/ts/ast_utils.ts:687-693 | no match is passed over: each is what a search from the end of the one before finds, and behind the last there is none |
| `PatternMatcher.Matcher.Replace` | src/bindings/nodejs/corsa_oxlint/ts/ast_utils.ts:1593-1609 | the result is the string with every match replaced by its text; a function that returns its match reproduces the string |
| `PatternMatcher.Matcher.ReplaceWithString` | src/bindings/nodejs/corsa_oxlint/ts/ast_utils.ts:1553-1573 | the same for an expanded template; the template `$&` reproduces the string |
| `PatternMatcher.UnmatchedStays` | src/bindings/nodejs/corsa_oxlint/ts/ast_utils.ts:1553-1609 | every unmatched character is in the result, moved by the growth of the matches before it |
| `PatternMatcher.MatchIsReplaced` | src/bindings/nodejs/corsa_oxlint/ts/ast_utils.ts:1553-1609 | where a match stood its replacement stands |
| `PatternMatcher.IdentityReplacement` | src/bindings/nodejs/corsa_oxlint/ts/ast_utils.ts:1553-1609 | replacing each match by itself changes nothing |
| `PatternMatcher.ExpandPlain` | src/bindings/nodejs/corsa_oxlint/ts/ast_utils.ts:1564-1566 | a template without a dollar sign stands for itself |
| `TemplateLaws.MarksExpand` | src/bindings/nodejs/corsa_oxlint/ts/ast_utils.ts:1575-1584 | `$$`, `$&`, the dollar sign with a backquote and with a quote stand for a dollar sign, the match, and what is before and behind it |
| `TemplateLaws.DigitExpands` | src/bindings/nodejs/corsa_oxlint/ts/ast_utils.ts:1585-1590 | a single digit stands for that capture, or for itself where the capture is missing or took no part |
| `TemplateLaws.DigitsExpand` | src/bindings/nodejs/corsa_oxlint/ts/ast_utils.ts:1585-1590 | two digits stand for that capture, or for themselves, even where there is a capture with the first digit alone |
| `TemplateLaws.OthersStay` | src/bindings/nodejs/corsa_oxlint/ts/ast_utils.ts:1543-1567 | every other character stands for itself, a dollar sign that begins no placeholder included |
| `Executor.NoLostWakeUp` | src/core/corsa_runtime/src/executor.rs:50-89 | in no reachable state of any number of threads has a wake completed after its store while the poller is blocked with the flag down; a poller still blocked under the raised flag is about to be notified by the holder of the lock |
| `Executor.ReachableIsSafe` | src/core/corsa_runtime/src/executor.rs:39-96 | every interleaving keeps the lock exclusive, readiness remembered, raised flags announced and the strong count exact |
| `Executor.ParkEndsNotified` | src/core/corsa_runtime/src/executor.rs:81-89 | `park` returns only with the flag up, seen under the lock; a spurious return goes back to the test |
| `Executor.ParkNeedsWake` | src/core/corsa_runtime/src/executor.rs:71-89 | between a moment with the flag down and a return from `park` some thread has set the flag |
| `Executor.NoUseAfterFree` | src/core/corsa_runtime/src/executor.rs:101-135 | whatever step is taken, the parker is still owned |
| `Executor.FreedExactly` | src/core/corsa_runtime/src/executor.rs:101-135 | the parker is freed exactly when `block_on` has returned and every waker is gone |
| `Executor.WakeReturns` | src/core/corsa_runtime/src/executor.rs:114-129 | whatever other threads do meanwhile, `wake_by_ref` leaves its caller with the waker and one call fewer, and `wake` with a waker to drop; stored readiness has been signalled |
| `Executor.WakesKeepCount` | src/core/corsa_runtime/src/executor.rs:101-135 | over any run only clones and drops move the strong count |
| `Executor.NoDeadlock` | src/core/corsa_runtime/src/executor.rs:50-60 | once readiness is stored some thread can move, without waiting for a spurious return, until `block_on` has returned |
| `Executor.RunsEnd` | src/core/corsa_runtime/src/executor.rs:50-60 | a run after readiness is no longer than the work there was plus a constant per spurious return |
| `Executor.BlockOnReturns` | src/core/corsa_runtime/src/executor.rs:39-61 | a run after readiness that nobody can extend except by a spurious return ends with `block_on` returned |
| `Broadcast.Channel.Send` | src/core/corsa_runtime/src/broadcast.rs:82-93 | the log grows by the value for every receiver still alive, the count is the number of subscribers kept, every live receiver stays subscribed and, undisturbed by drops, exactly the live ones, in order; other threads may receive and drop between any two deliveries |
| `Broadcast.Channel.Subscribe` | src/core/corsa_runtime/src/broadcast.rs:61-65 | a new receiver starts at the end of the log |
| `Broadcast.Channel.Receive` | src/core/corsa_runtime/src/broadcast.rs:101-111 | the message under the receiver's cursor in the shared log; disconnected exactly when it has read everything and no sender is left |
| `Broadcast.Channel.DropReceiver` | src/core/corsa_runtime/src/broadcast.rs:82-92 | only that receiver's queue goes, the list is pruned later |
| `Broadcast.Channel.DropSender` | src/core/corsa_runtime/src/broadcast.rs:22-25 | the subscriber list goes with the last clone of the sender |
| `Broadcast.Channel.QueueIsAhead` | src/core/corsa_runtime/src/broadcast.rs:50-112 | a live receiver's queue is the log ahead of its cursor, and what it consumed is the log since it subscribed |

## Left out

- The asynchronous variants and the calls into client, session and server: the transport is a function that may fail, the checker a record of functions.
- Marshalling layers (N-API, C, C++, Go, C#, Swift, MoonBit), process management, configuration and the remaining predicates of ast_utils.ts: they would only add easy members.
- `RequestKey.KeyDeterminesRequest`: parameters are strings and integers; lone surrogates and other numbers do not occur in the keys the planner builds. Object keys of direct requests keep the order in which the planner lists them.
- `CheckerBatch.ResolveCheckerBatch`: a plan is resolved once, as the source does; JavaScript strings are sequences of characters, and the numbers of queries are integers.
- `ClassDeclarations.CollectImplementingClassDeclarations`: the regular expression that reads a class name is a parameter, and what is recorded for a declaration is its range.
- `TypeArguments.TypeArgumentPositionsForSourceRange`: the Unicode whitespace table is a parameter.
- `TypeWalk.Session.ImplementedTypesFromTypeAndBases`: base types and own-implemented types are functions of the type identifier; the second cache, of own-implemented types, is not modelled.
- `Scopes.GetInnermostScope`: scopes are assumed to form a tree with consistent links; that children lie inside their parents and siblings apart is assumed only where the scope found is said to be innermost.
- `ReferenceTracker.Tracker.IterateGlobalReferences`: the generator is run to its end, and the contract says which references are found, not in which order or how often; property names and scope lookup are parameters; trace maps are finite trees. The import and export forms are not modelled: the rewriting of `default` deliberately breaks the correspondence of path and trace map.
- `StaticValue.FoldIsSound`: arithmetic, comparison of unlike values and conversion to text are operators both sides share and run no user code; big integers, regular expressions, `__proto__` keys and the order of fields are not modelled. The condition on omitted elements is sufficient; the exact one is that of `OmittedElements.FoldsExactly`.
- `StaticForms.FoldsStaticForms`: array literals that omit elements are left to `OmittedElements`; a static value may also exist where evaluation is abrupt, in the earlier expressions of a sequence.
- `PassedValues.PassesExactly`: the operands of an expression are different nodes, and one parent is looked at; that a value may have to be true for one parent and false for the next is not considered, as it is not in the source.
- `OmittedElements.FoldsExactly`: object literals that write a field twice, and operands with omitted elements under operators that look into arrays, are covered by the sufficient condition only: a later write or an operator may hide the difference.
- `PatternMatcher.Matcher.ExecAll`: the regular expression is a function that finds non-empty matches at or after a position; empty matches, sticky searches and the checks of the constructor are not modelled.
- `PatternMatcher.Matcher.Replace`: matches are collected before they are replaced, which the independence of `ExecAll` from its consumer allows.
- `Executor.NoLostWakeUp`: steps are sequentially consistent; lock poisoning and panics are not modelled. A thread that stores readiness keeps its waker until it has woken; each thread calls `wake_by_ref` finitely often.
- `Broadcast.Channel.Send`: the other operations are atomic; a receiver that blocks is an outcome, not a thread.
