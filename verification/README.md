# Fitoria: a verified model

Fitoria is an HTTP server library in C++. This project models, in Dafny, the parts of it that decide what a
request means and what bytes travel, and proves what they promise, over every input, every run and every
interleaving. `dafny verify dfyconfig.toml` checks all of it.

## What is modelled

**Routing.** The router keeps routes in a prefix-compressed tree: static edges are split on insert, each node has one
parameter child, a table of verbs and a table for the wildcard, and a lookup tries static text, then the parameter,
then the wildcard. `RouterTree` has the tree operations as functions, `RouterHeap` has the same operations as a class
that rewrites its nodes in place and is proved equal to them. `RouteShape` says what routing means without a tree: the
best of the registered patterns that match. `RouterRuns` connects the two for every run of registrations and
reorderings, `RouterReach` and `RouterSeen` say what remains of that when the tree loses routes from sight, and
`RouterExamples` and `RouterCover` have the runs that show it. `PathTokens`, `PathGrammar` and `PathParser` are the
pattern language and its scanner, `PathChars` the characters in it, `PathConcat` the joining of scope and route paths, `PathMatcher` and `PathInfo` what
happens to a path after it is routed, and `RequestDispatch` and `RequestPaths` the place in the server where router
and matcher have to agree.

**Scopes.** `ScopeFlatten` reads a chain of builder calls in two ways, as the compiler to flat routes that the source
is, and as the nesting that its author wrote, and proves the two equal. `StateMaps` runs the same chains on the heap,
where scopes and routes share state maps by reference. `ServerBuild` goes from the builder calls through the router
and the matcher to the outcome of a request: not found, served by the best endpoint that the nesting means, or a match
that fails to unwrap, and exactly when which. `StateForks` lets a scope value be built upon more than once.

**Base64.** `Base64Codec` has the two state machines and section 4 of RFC 4648 as an independent reference,
`Base64Laws` the laws, `Base64Stream` the two stream objects, `Base64Vectors` the alphabets and the vectors of
section 10.

**Bytes and files.** `DynamicBuffer` (with reading a stream to its end), `ByteRanges`, `FileStream`, `StaticFile`.

**Protocols and headers.** `ChatRoom` is the membership protocol of the chat server as a transition system;
`Decompress` undoes content codings; `Strings`, `EntityTags` and `MimeTypes` are the list-shaped headers.

## How to read it

Code that changes things in place is a class or a loop here too, and each such method is proved against a function
of its inputs or of the old state; the theorems are about those functions. Where a property of the source is false,
there is a lemma with a concrete input that shows it and a lemma with the exact condition under which it holds.

Character classes, alphabets, names and separators are defined once and shared by the code that prints and the code
that reads. What they are is stated apart from that, on literal text (`PathChars.StaticChar`,
`Base64Vectors.DigitListed`, `EntityTags.ValueChars`, `MimeTypes.NameChars`, `Strings.EqualLetters`,
`Decompress.NamedIs`).

Integers are unbounded unless the source's width matters: `size_t` and `uint64` sums that can wrap are written with
`% WORD`. The bit operations of base64 are written as division and remainder by powers of two. Paths, headers and
patterns are sequences of characters of which only the ASCII ones are ever significant.

## What the proofs found

- `router.hpp:78-86` moves only the first sibling that extends a new, shorter text below the new node. A second
  one stays beside it, and lookups no longer reach it (`RouterExamples.SplitLosesSibling`). Soundness, conservation
  and atomic rejection hold regardless. What becomes of completeness depends on what comes before and after:
  - One more registration after a safe run keeps every lookup right if and only if its split leaves no such sibling
    behind (`RouterRuns.FaithfulIffSplitSafe`).
  - After any run of registrations, safe or not, lookups are the plain search over the routes still in reach
    (`RouterReach.ReachedAnswers`), and right for all routes if and only if the others are covered by those in reach
    wherever they fit (`RouterReach.FaithfulIffCovered`). Without collisions, all routes are in reach if and only if
    every split was safe (`RouterReach.SafeIffAllReached`), and without patterns that end in a wildcard that is also
    when every lookup is right (`RouterReach.FaithfulIffSafe`); with them an unsafe run can still answer everything
    rightly (`RouterCover.UnsafeButFaithful`).
  - A built server has also run `optimize`, which may put the sibling left behind in front again. There safe splits
    suffice (`ServerBuild.AnswersRight`) and are not necessary (`RouterExamples.ReorderMendsSplit`). For every run,
    reordered or not, lookups are the plain search over the routes they come by (`RouterSeen.SeenAnswers`), which
    gives the exact condition for a built server (`ServerBuild.AlwaysRightIff`). That condition
    speaks of all paths and of the tree that results, so it is no check to make before building. What can be checked
    then is whether splits are safe, which is exact before `optimize` and sufficient after it.
- The same split lets a duplicate in: a registration is refused only if a route still in reach has its verb and shape
  (`RouterReach.RejectedIffReached`, `RouterExamples.DuplicateTaken`), and that is when the builder throws
  (`ServerBuild.SucceedsIffUnmet`).
- The server unwraps the match of a found route (`http_server.hpp:457`). The router lets a parameter stand for an
  empty segment or one with braces, the matcher does not (`RequestDispatch.Dispatch`). So on a server that finds the
  right routes, every pattern with a parameter that is found at all is also found for a path on which the unwrapping
  fails (`ServerBuild.SpoiltFails`, `ServerBuild.AlwaysBestIff`); on paths without braces and empty segments it never
  does (`ServerBuild.CleanUnwraps`).
- The check for repeated names (`path_parser.hpp:140-144`) compares with every earlier token, static text included,
  so a wildcard may not be named like the text in front of it (`abc#abc`); `#name` at the very start leaves an empty
  static token in front. The grammar in `PathTokens` says exactly that.
- `prepare` does not resize the container when it compresses (`dynamic_buffer.hpp:133-134`): the region it hands
  out can end past the container, and `commit` then accepts fewer bytes than were written
  (`DynamicBuffer.PutExact`). `consume` and `commit` add without a check for wrap-around, and do what they say
  exactly when the sum fits a word (`DynamicBuffer.ConsumeMeans`, `DynamicBuffer.CommitExact`).
- A suffix range longer than the file, or an open range that starts past its end, wraps and passes the bound check
  (`ByteRanges.BoundedInside`); the response then announces more bytes than it delivers
  (`StaticFile.AcceptedExactly`). In `bytes=0-18446744073709551615` the length itself wraps to zero, and nothing is
  served (`StaticFile.WholeWordServesNothing`). The bytes that do go out are the right ones but for two families,
  suffixes longer than a non-empty file and that one range (`StaticFile.ServedMeans`).
- A closed range that reaches past the end is refused rather than cut (`StaticFile.OverlongRangeRefused`,
  `ByteRanges.BoundedIffSatisfiable`).
- `Content-Range` carries the length of the part where section 14.4 of RFC 9110 has the complete length
  (`StaticFile.ContentRangeComplete`).
- State that a scope is given after it has served a route reaches that route if the scope held some state before,
  and does not if it held none (`StateMaps.LateState`, `StateMaps.SeenIsNearest`). Two scopes built upon one share its
  map, so state used for one is seen by routes of the other (`StateForks.ForkLeaks`). `copy_insert_front` writes
  through to the original when there is a front map (`StateMaps.CopyInsertFront`).
- The decoder accepts shorter padding than the standard asks for, and none (`Base64Laws.AcceptsExactly`).
- The coding that RFC 9110 calls `br` is spelled `brotli` in `decompress.hpp:51`, and MIME names with a dot are
  refused (`mime_view.hpp:342-345`). The model follows the code.

## Model

| member | source | states |
|---|---|---|
| RouterRuns.RunRefinesSearch | include/fitoria/web/router.hpp:43-226 | after any run of registrations and reorderings whose splits are safe, every lookup answers exactly as the plain priority search (static, then parameter, then wildcard; exact verb before any verb) over the set of registered patterns |
| RouterRuns.OrderIndependent | include/fitoria/web/router.hpp:43-226 | two safe runs that registered the same routes answer every lookup alike, whatever the order and the reorderings between |
| RouterRuns.FaithfulIffSplitSafe | include/fitoria/web/router.hpp:71-89 | right after a safe run, before any further `optimize`: one more accepted registration keeps every lookup right if and only if its split is safe |
| RouterExamples.SplitLosesSibling | include/fitoria/web/router.hpp:78-86 | the concrete failure, in a router that a built server can have: `/a`, `/b`, `/{x}`, then `optimize`; `/b` is served by the parameter route |
| RouterExamples.ReorderMendsSplit | include/fitoria/web/router.hpp:115-132 | `/a`, `/b`, `/b1`, `/b2`, `/`: unsafe, with wrong lookups before `optimize` and only right ones after it, so for a built server safe splits are sufficient but not necessary |
| RouterCover.UnsafeButFaithful | include/fitoria/web/router.hpp:78-86 | `/a`, `/b/#w`, `/`, `/b/`, `/b/{x}`, `/b/{x}/#z`: no collision, unsafe, and `/b/#w` is out of reach; yet wherever it fits another of the routes fits and outranks it, and every lookup is right |
| RouterReach.ReachedAnswers | include/fitoria/web/router.hpp:134-226 | for any run of registrations, safe or not: every lookup is the plain priority search over the routes that stayed in reach: those on whose way down no static child stands behind a sibling that starts its text |
| RouterReach.FaithfulIffCovered | include/fitoria/web/router.hpp:71-89 | for any run of registrations: every lookup is right over all registered routes if and only if wherever a route out of reach fits, one in reach fits too and is at least as preferred |
| RouterReach.FaithfulIffSafe | include/fitoria/web/router.hpp:71-89 | for any run of registrations without collision and without a pattern that ends in a wildcard: every lookup is right if and only if every split was safe |
| RouterReach.SafeIffAllReached | include/fitoria/web/router.hpp:78-89 | a run of registrations without collision is safe if and only if every route stays in reach |
| RouterReach.SafeIffPrefixFree | include/fitoria/web/router.hpp:78-89 | a run of registrations is safe if and only if no sibling of the tree it leaves starts another |
| RouterReach.RejectedIffReached | include/fitoria/web/router.hpp:43-113 | for any run of registrations, safe or not: the next registration is refused exactly when a route in reach has its verb and shape |
| RouterExamples.DuplicateTaken | include/fitoria/web/router.hpp:78-86 | the concrete failure: after `/a`, `/b`, `/` a second `/b` is not refused |
| RouterReach.HiddenEndsInWildcard | include/fitoria/web/router.hpp:78-89 | a route that is out of reach without making a lookup wrong ends in a wildcard |
| RouterSeen.SeenAnswers | include/fitoria/web/router.hpp:134-226 | for any run, safe or not, with `optimize` anywhere: every lookup is the plain priority search over the registered routes it comes by, those for which every static child on the way is the first sibling that starts the rest of the path |
| RouterSeen.FaithfulIffOutranked | include/fitoria/web/router.hpp:71-132 | for any such run: every lookup is right over all registered routes if and only if each fitting route that a lookup passes by is outranked by one it comes by (a condition on the final tree and all paths) |
| RouterReach.SameRoutesSameAnswers | include/fitoria/web/router.hpp:43-226 | two safe runs without collision that register the same routes, in any order and with any reorderings between, answer every lookup alike |
| RouterRuns.RunSound | include/fitoria/web/router.hpp:134-226 | for any run, safe or not: a route that a lookup returns was registered, serves the method, and its own pattern matches the path |
| RouterRuns.RunConserves | include/fitoria/web/router.hpp:43-132 | for any run: a route is stored once for each time it was accepted, always under the shape its own tokens spell, and nowhere else |
| RouterRuns.AcceptedWasRegistered | include/fitoria/web/router.hpp:190-193 | only registered routes are ever stored |
| RouterRuns.SafeRunRepresents | include/fitoria/web/router.hpp:43-113 | on a safe run the tree stores exactly the registered routes, and no two of the same verb and shape |
| RouterRuns.RegisterRepresents | include/fitoria/web/router.hpp:103-113 | on a tree whose siblings are prefix-free and that stores exactly the registry: a registration is accepted exactly when no registered route has its verb and shape, and then the registry grows by that route alone |
| RouterRuns.ReorderCountsShapes | include/fitoria/web/router.hpp:195-210 | on a safe run `optimize` returns the number of distinct registered shapes |
| RouterRuns.AcceptedIffApart | include/fitoria/web/router.hpp:103-113 | in a safe run no registration is refused exactly when no two of them share verb and shape |
| RouteShape.AnswerUnique | include/fitoria/web/router.hpp:212-226 | the priority search has one answer: with distinct keys no two outcomes can both be the best |
| RouteShape.PrecedesTotal | include/fitoria/web/router.hpp:223-225 | of two patterns that match the same path one always takes precedence |
| RouteShape.PrecedesAntisymmetric | include/fitoria/web/router.hpp:223-225 | and never both, unless they are the same pattern up to parameter names |
| RouteShape.WhereTheyPart | include/fitoria/web/router.hpp:212-226 | where two patterns part behind any common front: text wins over the parameter, both over the wildcard, and the end of the pattern over the wildcard too |
| RouterExamples.Priorities | include/fitoria/web/router.hpp:134-226 | the priority search on a concrete table, `/a` for one verb and for any, `/{x}` and `/#rest`: the one best route for each of two verbs and every text behind the slash |
| RouterTree.RejectedInsertKeepsTree | include/fitoria/web/router.hpp:43-113 | a rejected insert leaves the tree exactly as it was |
| RouterTree.FindSound | include/fitoria/web/router.hpp:134-172 | without any premise on siblings: what a lookup finds is stored below the node under a shape that matches the path |
| RouterEntries.InsertAddsOne | include/fitoria/web/router.hpp:62-113 | an insert adds one copy of its route under its own shape when accepted, and changes no other count, through any splits |
| RouterEntries.HasIffCopies | include/fitoria/web/router.hpp:36-41 | being stored is having at least one copy |
| RouterSearch.FindBest | include/fitoria/web/router.hpp:134-226 | with prefix-free siblings, if some stored route fits, the lookup succeeds and returns one at least as preferred: committing to the first matching static child loses nothing |
| RouterSearch.RejectedIffTaken | include/fitoria/web/router.hpp:43-113 | with prefix-free siblings an insert is rejected exactly when the same verb and shape is stored |
| RouterSplit.PrefixFreeIffSplitSafe | include/fitoria/web/router.hpp:78-89 | an insert keeps all siblings prefix-free exactly when at each split at most one sibling extends the token |
| RouterShadow.UnsafeSplitMisses | include/fitoria/web/router.hpp:78-86 | after an unsafe split there is a method and a path on which a route stored earlier is missed |
| RouterOptimize.OptimizeKeepsCopies | include/fitoria/web/router.hpp:115-132 | `optimize` keeps every stored route, with its multiplicity and shape |
| RouterOptimize.OptimizeKeepsLookups | include/fitoria/web/router.hpp:195-210 | with prefix-free siblings `optimize` changes no lookup |
| RouterOptimize.OptimizeKeepsPrefixFree | include/fitoria/web/router.hpp:115-132 | reordered siblings stay prefix-free |
| RouterOptimize.ByWeightSorts | include/fitoria/web/router.hpp:119-129 | the weights end up falling, and no sibling is lost or invented |
| RouterOptimize.ByWeightStable | include/fitoria/web/router.hpp:119-129 | siblings of the same weight keep their order |
| RouterOptimize.OptimizeCountsTables | include/fitoria/web/router.hpp:195-210 | on every tree the returned count is the number of its non-empty verb and wildcard tables, which `optimize` does not change |
| RouterOptimize.WeightCountsShapes | include/fitoria/web/router.hpp:195-210 | with prefix-free siblings the returned count is the number of distinct shapes stored |
| RouterHeap.TreeNode.constructor | include/fitoria/web/router.hpp:185-188 | a fresh node is the empty tree with its prefix |
| RouterHeap.TreeNode.TryInsert | include/fitoria/web/router.hpp:43-60 | the in-place insert does to the tree of heap nodes exactly what the tree function does |
| RouterHeap.TreeNode.TryInsertStatic | include/fitoria/web/router.hpp:62-90 | the same for static text: descend, split, or append |
| RouterHeap.TreeNode.SplitChild | include/fitoria/web/router.hpp:78-84 | the in-place split: the child loses the text, and a new node with that text takes its place and holds it |
| RouterHeap.TreeNode.TryInsertParam | include/fitoria/web/router.hpp:92-101 | the same for a parameter, whose child is made on demand |
| RouterHeap.TreeNode.TryFind | include/fitoria/web/router.hpp:212-226 | the lookup on the heap is the lookup on the tree |
| RouterHeap.TreeNode.TryFindStatic | include/fitoria/web/router.hpp:134-144 | the same for the loop over static children |
| RouterHeap.TreeNode.TryFindParam | include/fitoria/web/router.hpp:146-157 | the same for the parameter child, which skips to the next slash |
| RouterHeap.TreeNode.Reorder | include/fitoria/web/router.hpp:195-210 | in-place `optimize` yields the reordered tree and its count |
| RouterHeap.TreeNode.ReorderStatics | include/fitoria/web/router.hpp:115-132 | the children are optimized, counted and put back by falling count, equal counts in their old order |
| PathGrammar.ParsePrint | include/fitoria/web/path_parser.hpp:72-149 | parsing a printed well-formed token list gives back the list |
| PathGrammar.PrintParse | include/fitoria/web/path_parser.hpp:72-149 | printing what was parsed gives back the pattern, and what was parsed is well-formed |
| PathGrammar.AcceptsExactlyGrammar | include/fitoria/web/path_parser.hpp:43-47 | the parser accepts exactly the printed forms of the grammar |
| PathGrammar.ScopeParserIsRestriction | include/fitoria/web/path_parser.hpp:84-87 | the scope parser is the route parser restricted to patterns without `#` |
| PathConcat.ConcatIsFuse | include/fitoria/web/route.hpp:82-95 | for every accepted scope path and route path: their concatenation parses to the two token lists with the adjoining static tokens fused, and is refused exactly when the fused list is not well-formed |
| PathParser.Parser.ParsePattern | include/fitoria/web/path_parser.hpp:43-70 | the object accepts exactly the grammar and holds the tokens whose printed form is the pattern |
| PathParser.Parser.OnRoot | include/fitoria/web/path_parser.hpp:72-135 | the loop computes what the state machine computes on the rest of the pattern |
| PathParser.Parser.Step | include/fitoria/web/path_parser.hpp:75-118 | one turn of the loop: the outcome ahead does not change, or there is none |
| PathParser.Parser.CloseParam | include/fitoria/web/path_parser.hpp:100-110 | closing a parameter: refused when empty, repeated, or not followed by a slash or the end |
| PathParser.Parser.TryPushWithoutDuplicate | include/fitoria/web/path_parser.hpp:137-149 | a token is pushed exactly when its value is new; otherwise nothing changes |
| PathParser.Parser.OnPchar | include/fitoria/web/path_parser.hpp:161-174 | advances by one character or one percent-encoded triple |
| PathParser.Parser.OnPctEncoded | include/fitoria/web/path_parser.hpp:176-188 | accepts exactly a percent sign and two hexadecimal digits |
| PathParser.Parser.Get | include/fitoria/web/path_parser.hpp:56-59 | hands out the tokens and keeps none |
| PathChars.StaticChars | include/fitoria/web/path_parser.hpp:157-195 | a text without a percent sign is one static token exactly when each character is `/` or one of the pchar of RFC 3986, which are listed |
| PathChars.StaticChar | include/fitoria/web/path_parser.hpp:190-195 | the same for each single character |
| PathChars.StaticOctet | include/fitoria/web/path_parser.hpp:176-188 | a percent sign and two characters are static text exactly when both are among the listed hexadecimal digits |
| PathChars.NameChars | include/fitoria/web/path_parser.hpp:91-135 | what may be in braces or behind `#`: one or more listed characters, the slash not among them |
| PathMatcher.MatcherAgreesWithRouter | include/fitoria/web/path_matcher.hpp:76-96 | the matcher accepts exactly the paths that the router matches to the pattern with every skipped parameter segment non-empty and brace-free, and captures those segments |
| PathMatcher.CapturesSound | include/fitoria/web/path_matcher.hpp:57-73 | what is captured fills the pattern back to the path |
| PathMatcher.CapturesComplete | include/fitoria/web/path_matcher.hpp:57-73 | the decomposition is unique: any admissible filling is the captured one |
| PathMatcher.SkippedFillsHoles | include/fitoria/web/router.hpp:146-157 | the router skips one segment for each parameter or wildcard of a matching pattern |
| PathMatcher.GatherIsPairs | include/fitoria/web/path_matcher.hpp:61-67 | looking the groups up by name gives the captured values in pattern order, because names are distinct |
| PathMatcher.ParamTakes | include/fitoria/web/path_matcher.hpp:76-96 | a parameter behind a slash takes exactly the non-empty texts without braces and slashes |
| PathMatcher.Matcher.constructor | include/fitoria/web/path_matcher.hpp:32-45 | the matcher holds the tokens of its pattern |
| PathMatcher.Matcher.Match | include/fitoria/web/path_matcher.hpp:57-73 | succeeds exactly when some filling exists, and returns that filling paired with the names |
| PathInfo.StoredDistinct | include/fitoria/web/path_info.hpp:133-136 | with distinct names every pair survives in the map |
| PathInfo.StoredLast | include/fitoria/web/path_info.hpp:133-136 | under each name the map holds the value of the last pair with it |
| PathInfo.Info.constructor | include/fitoria/web/path_info.hpp:127-137 | the object holds the keys in order and the map of the last values |
| PathInfo.Info.GetByName | include/fitoria/web/path_info.hpp:224-231 | the value of the last pair with the name, and none exactly when no pair has the name |
| PathInfo.Info.GetByIndex | include/fitoria/web/path_info.hpp:238-245 | with distinct names, the value at its place in the pattern |
| PathInfo.Info.Iterate | include/fitoria/web/path_info.hpp:296-309 | with distinct names iteration yields the pairs in pattern order |
| RequestDispatch.Compile | include/fitoria/web/path_matcher.hpp:32-45 | a matcher can be built exactly for the patterns of the grammar |
| RequestDispatch.Dispatch | include/fitoria/web/http_server.hpp:451-457 | one request on a router reached by any run, with the heap lookup, the matcher and the captured pairs: no route, or the found route served with the segments the router skipped, or, exactly when one of these segments is empty or holds a brace, a match that fails to unwrap |
| RequestDispatch.AnswerFound | include/fitoria/web/http_server.hpp:451-457 | the same of the outcome as a function of the tree: the found route was registered and fits, and its skipped segments fill its pattern back to the path, each under a name of its own |
| RequestPaths.CapturesIffFit | include/fitoria/web/path_matcher.hpp:76-96 | on a path that the router matches to a pattern, the matcher captures exactly when each segment that a parameter takes is non-empty and free of braces |
| RequestPaths.CleanFits | include/fitoria/web/router.hpp:146-157 | on a path without braces and without an empty segment between slashes they always are |
| RequestPaths.SpoiltMatches | include/fitoria/web/router.hpp:146-157 | every shape with a parameter also matches a path on which they are not |
| RequestPaths.ReplacedMatches | include/fitoria/web/router.hpp:134-226 | and that path matches no shape that the original did not match |
| RequestDispatch.EmptySegmentDisagrees | include/fitoria/web/router.hpp:150-151 | the concrete failure: `/{x}/y` on `//y` is found by the router and refused by the matcher |
| ScopeFlatten.FlatteningKeepsMeaning | include/fitoria/web/scope.hpp:62-113 | building the flat routes of a nested scope gives the meaning of the nesting: paths joined from root to leaf; the middlewares in force at each `serve`, outermost scope first; then the route's own; then the handler |
| ScopeFlatten.OneRoutePerLeaf | include/fitoria/web/scope.hpp:92-113 | one flat route per leaf |
| ScopeFlatten.CompiledInForce | include/fitoria/web/scope.hpp:62-72 | a scope object holds the middlewares used so far, in order |
| ScopeFlatten.FoldIsWrap | include/fitoria/web/route.hpp:114-134 | folding the reversed tuple from the handler outwards puts the first middleware outermost |
| ScopeFlatten.BuildMeans | include/fitoria/web/route.hpp:97-111 | a built route runs its middlewares, then what the server adds, then the handler |
| ScopeFlatten.BuildRebound | include/fitoria/web/route.hpp:82-95 | rebinding to a parent puts the parent's path and middlewares around what the route was |
| ScopeFlatten.NestedMeans | include/fitoria/web/scope.hpp:62-113 | the order of a nesting, spelled out: two middlewares on the outer scope, one on the inner, one on the route, one of the server, then the handler |
| ScopeFlatten.ServedInOrder | include/fitoria/web/scope.hpp:74-113 | what is served later stands later in the list |
| StateMaps.FindState | include/fitoria/web/state_storage.hpp:61-72 | the scan returns what the first level that knows the type holds |
| StateMaps.CopyPrepend | include/fitoria/web/state_storage.hpp:33-39 | the new map decides first; the original is unchanged |
| StateMaps.CopyAppend | include/fitoria/web/state_storage.hpp:41-47 | the new map decides last; no lookup that succeeded changes |
| StateMaps.CopyInsertFront | include/fitoria/web/state_storage.hpp:49-59 | the copy finds the new value; a front map that existed is shared, so the original finds it too |
| StateMaps.BuildRoute | include/fitoria/web/route.hpp:55-67 | a route's own state: a lookup finds a type exactly when some call gave it, and then the value of the last such call; no map without calls |
| StateMaps.CollectedLast | include/fitoria/web/route.hpp:55-67 | the same of the map itself: a type is in it exactly when some call gave it, with the value of the last such call |
| StateMaps.StatesOfUsed | include/fitoria/web/scope.hpp:48-60 | the types that a scope's chain registers are exactly those of its `use_state` calls |
| StateMaps.StatesOfLast | include/fitoria/web/scope.hpp:48-60 | with the value of the last such call for the type |
| StateMaps.RebindParent | include/fitoria/web/route.hpp:90-92 | the parent's map is linked, by reference, exactly when it is not empty at that moment |
| StateMaps.BuildScope | include/fitoria/web/scope.hpp:48-113 | running one chain of builder calls on the heap: whatever the scope's shared map comes to hold, each route sees the levels computed for it |
| StateMaps.LookupMeans | include/fitoria/web/state_storage.hpp:61-72 | a lookup on a built route, in terms of those levels |
| StateMaps.SeenIsNearest | include/fitoria/web/scope.hpp:48-90 | every route sees what each enclosing scope held at its `serve`, exactly when at each `serve` the scope held nothing yet or all it would ever hold |
| StateMaps.LookupNearest | include/fitoria/web/scope.hpp:48-90 | then a lookup returns the value registered at the nearest enclosing level: the route, then the scopes outward |
| StateMaps.NearestWins | include/fitoria/web/scope.hpp:48-113 | spelled out for a route in a scope in a scope: the route's own state is found first, then the inner scope's, then the outer's |
| StateMaps.StatesFirstSettles | include/fitoria/web/scope.hpp:48-60 | all `use_state` calls before the first `serve` is such a discipline |
| StateMaps.LateState | include/fitoria/web/route.hpp:90-92 | the concrete failures: state used after `serve` is seen if the scope held something before, and not seen if it held nothing |
| StateMaps.FirstWithSolid | include/fitoria/web/state_storage.hpp:65-69 | empty maps make no difference to a lookup |
| StateForks.BuildForks | include/fitoria/web/scope.hpp:48-113 | builder calls on any of the scope values made so far: all values share one map, each keeps its own routes, and whatever the map comes to hold each route sees the levels computed for it |
| StateForks.ForkLookup | include/fitoria/web/state_storage.hpp:61-72 | a lookup on a route of any such value, in terms of those levels |
| StateForks.HeldLast | include/fitoria/web/scope.hpp:48-60 | the shared map holds a type exactly when a call on any of the values used it, and then the value of the last such call |
| StateForks.ForkIsAlone | include/fitoria/web/scope.hpp:48-113 | the routes of a value see what its own chain of calls would give them, exactly when at each `serve` on that chain the calls on other values change neither whether the map is linked nor what it comes to hold |
| StateForks.StatesFirstApart | include/fitoria/web/scope.hpp:48-60 | all `use_state` calls in one chain before any value is used again is a discipline that ensures this |
| StateForks.ForkLeaks | include/fitoria/web/scope.hpp:48-60 | the concrete failure: state used on one of two values made from a scope is seen by a route of the other |
| ServerBuild.BuildServer | include/fitoria/web/http_server.hpp:780-856 | building a server: compile each matcher, insert each route in order, stop at the first refusal, then optimize; what results is the optimized tree of the endpoints' registrations |
| ServerBuild.Serve | include/fitoria/web/http_server.hpp:783-793 | serving one route succeeds exactly when its path parses and the tree takes it |
| ServerBuild.SucceedsIffApart | include/fitoria/web/http_server.hpp:771-793 | with paths that parse and no unsafe split, the builder throws exactly when two routes have the same verb and the same pattern up to parameter names |
| ServerBuild.SucceedsIffUnmet | include/fitoria/web/http_server.hpp:771-793 | with no premise: the builder throws exactly when a path does not parse or an endpoint has the verb and shape of an earlier one that is still in reach |
| ServerBuild.FitsMeans | include/fitoria/web/http_server.hpp:783-793 | the route of an endpoint prints as its path and stands for its own service; it fits a request exactly when its verb is that of the request or any, and its path's shape matches |
| ServerBuild.AnswersRight | include/fitoria/web/http_server.hpp:451-457 | when all paths parse, every split is safe and no two endpoints collide, the outcome of every request is right: not found exactly when no endpoint fits, else a fitting endpoint that no other outranks, served with the segments of the path if they are non-empty and free of braces, and otherwise failing to unwrap (safe splits are sufficient, not necessary: `RouterExamples.ReorderMendsSplit`) |
| ServerBuild.RightIffFound | include/fitoria/web/http_server.hpp:451-457 | on any server with paths that parse: the outcome of a request is right in this sense exactly when the lookup is the plain search over all endpoints |
| ServerBuild.AlwaysRightIff | include/fitoria/web/http_server.hpp:771-856 | the outcome of every request to a built server, `optimize` included, is right in this sense if and only if each fitting endpoint that a lookup passes by is outranked by one it comes by |
| ServerBuild.CleanUnwraps | include/fitoria/web/http_server.hpp:451-457 | on any server, a request for a path without braces and without an empty segment between slashes does not fail to unwrap |
| ServerBuild.SpoiltFails | include/fitoria/web/http_server.hpp:457-457 | when outcomes are right and some request finds a route with a parameter, a path that differs in one segment finds a route of that shape and fails to unwrap |
| ServerBuild.AlwaysBestIff | include/fitoria/web/http_server.hpp:451-457 | every request is answered rightly and none fails to unwrap if and only if outcomes are right and no request finds a route with a parameter |
| ServerBuild.AlwaysBestIffNoPar | include/fitoria/web/http_server.hpp:451-457 | the same as a check on the endpoints, for safe splits, no collision and no pattern that ends in a wildcard: if and only if no pattern has a parameter |
| ServerBuild.ScopesAnswer | include/fitoria/web/http_server.hpp:805-825 | from builder calls to outcome, under the premises of `AnswersRight`: serving the flat routes of nested scopes has the outcome that is right for the endpoints the nesting means, with their services |
| Base64Codec.TablesInverse | include/fitoria/encoding/base64/alphabet.hpp:21-79 | the encode and decode table of each alphabet are inverse, and padding is in neither |
| Base64Vectors.DigitListed | include/fitoria/encoding/base64/alphabet.hpp:21-79 | the digit of a value is the character at that place of the alphabet as RFC 4648 prints it, for both alphabets |
| Base64Codec.EncoderMeetsStandard | include/fitoria/encoding/base64/encoder.hpp:43-131 | streaming and then flushing writes exactly the text of section 4 of RFC 4648 |
| Base64Codec.EncodedLength | include/fitoria/encoding/base64/encoder.hpp:90-123 | the length of section 4: four characters a group when padded, else as many as the bits need |
| Base64Codec.EncodeRunConcat | include/fitoria/encoding/base64/encoder.hpp:43-55 | feeding two pieces is feeding them joined |
| Base64Codec.DecodeRunConcat | include/fitoria/encoding/base64/decoder.hpp:46-61 | the same for the decoder |
| Base64Codec.GroupDigits | include/fitoria/encoding/base64/encoder.hpp:64-85 | the digits computed from the kept byte and the new one are the six-bit pieces of the 24-bit group |
| Base64Vectors.Vectors | include/fitoria/encoding/base64/encoder.hpp:43-131 | the vectors of section 10 of RFC 4648 in both directions, with and without padding |
| Base64Vectors.PaddingOfTwo | include/fitoria/encoding/base64/decoder.hpp:63-135 | two digits may be followed by none, one or two `=`, and by no more |
| Base64Vectors.PaddingOfOthers | include/fitoria/encoding/base64/decoder.hpp:63-135 | three digits by no second `=`, four by none, and one digit alone is refused |
| Base64Laws.AcceptsExactly | include/fitoria/encoding/base64/decoder.hpp:41-135 | the decoder ends done exactly on n alphabet characters, n mod 4 not 1, followed by at most 2, 1 or 0 `=` for n mod 4 equal to 2, 3, 0; and it always writes floor(3n/4) bytes |
| Base64Laws.DigitCountMeans | include/fitoria/encoding/base64/decoder.hpp:76-83 | n is the length of the longest prefix of alphabet characters |
| Base64Laws.ErrorAbsorbs | include/fitoria/encoding/base64/decoder.hpp:68-70 | after an error nothing is written and the error stays |
| Base64Laws.RoundTrip | include/fitoria/encoding/base64/decoder.hpp:63-135 | decoding the text of section 4 gives the bytes back and ends done, for every input, alphabet and padding mode |
| Base64Laws.Reencode | include/fitoria/encoding/base64/encoder.hpp:57-123 | on acceptable text, encoding the decoded bytes gives the text back exactly when its left-over bits are zero and its padding is full (or absent without padding) |
| Base64Laws.EncodeChunksFlatten | include/fitoria/encoding/base64/encoder.hpp:43-55 | any way of cutting the input gives the same state and output |
| Base64Laws.DecodeChunksFlatten | include/fitoria/encoding/base64/decoder.hpp:46-61 | any way of cutting the text gives the same state and output |
| Base64Laws.StreamingRoundTrip | include/fitoria/encoding/base64/decoder.hpp:46-135 | however the bytes are cut on the way in and the text on the way out, the bytes come back and the decoder ends done |
| Base64Stream.Encoder.EncodeOne | include/fitoria/encoding/base64/encoder.hpp:57-88 | one byte: the object follows the state machine |
| Base64Stream.Encoder.EncodeNext | include/fitoria/encoding/base64/encoder.hpp:43-55 | the loop over a piece of input |
| Base64Stream.Encoder.EncodeRemainder | include/fitoria/encoding/base64/encoder.hpp:90-123 | the flush, after which the object is fresh again |
| Base64Stream.Encoder.Encode | include/fitoria/encoding/base64/encoder.hpp:125-131 | on a fresh object the text of section 4; otherwise the continuation of what was fed before |
| Base64Stream.Decoder.DecodeOne | include/fitoria/encoding/base64/decoder.hpp:63-135 | one character: the object follows the state machine |
| Base64Stream.Decoder.DecodeNext | include/fitoria/encoding/base64/decoder.hpp:46-61 | the loop that breaks at the first error computes what the whole input would |
| Base64Stream.Decoder.Decode | include/fitoria/encoding/base64/decoder.hpp:137-147 | succeeds exactly on acceptable text, and undoes the encoding of every byte sequence |
| DynamicBuffer.RunRefinesQueue | include/fitoria/core/dynamic_buffer.hpp:115-151 | over every run of prepare, commit and consume that observes the stated rules the buffer is a byte queue: the same calls fail, and the readable bytes are the queue's |
| DynamicBuffer.QueueConserves | include/fitoria/core/dynamic_buffer.hpp:115-151 | first in, first out: the readable bytes are those committed less those consumed |
| DynamicBuffer.PrepareMeans | include/fitoria/core/dynamic_buffer.hpp:129-141 | `prepare` fails exactly when size plus n exceeds the limit, and keeps the readable bytes |
| DynamicBuffer.RegionInside | include/fitoria/core/dynamic_buffer.hpp:131-140 | the region handed out lies in the container exactly when the first branch is taken or the container is already long enough |
| DynamicBuffer.PutExact | include/fitoria/core/dynamic_buffer.hpp:129-151 | prepare, copy, commit appends the bytes exactly when the region fits; otherwise some are lost |
| DynamicBuffer.CompressLosesBytes | include/fitoria/core/dynamic_buffer.hpp:133-134 | the concrete failure, from an empty buffer with limit 10: put 6 bytes, consume 3, put 5; 6 bytes are readable, not 8 |
| DynamicBuffer.CommitMeans | include/fitoria/core/dynamic_buffer.hpp:148-151 | within the prepared region exactly the first n bytes of it become readable |
| DynamicBuffer.CommitExact | include/fitoria/core/dynamic_buffer.hpp:148-151 | for any n: what lies behind the readable bytes is added, up to the end of the container, exactly when the addition does not wrap |
| DynamicBuffer.CommitWraps | include/fitoria/core/dynamic_buffer.hpp:148-151 | the concrete failure: committing 2^64 - 1 bytes behind six readable ones leaves five |
| DynamicBuffer.ConsumeMeans | include/fitoria/core/dynamic_buffer.hpp:115-122 | consuming drops the first n bytes, or all, exactly when the addition does not wrap |
| DynamicBuffer.ByteQueue.constructor | include/fitoria/core/dynamic_buffer.hpp:62-65 | an empty buffer with a limit |
| DynamicBuffer.ByteQueue.FromContainer | include/fitoria/core/dynamic_buffer.hpp:72-78 | an existing container is readable as a whole |
| DynamicBuffer.ByteQueue.Consume | include/fitoria/core/dynamic_buffer.hpp:115-122 | the object follows the transition function |
| DynamicBuffer.ByteQueue.Prepare | include/fitoria/core/dynamic_buffer.hpp:129-141 | the same; fails exactly on excess, and says when the region is inside |
| DynamicBuffer.ByteQueue.Commit | include/fitoria/core/dynamic_buffer.hpp:148-151 | the same |
| DynamicBuffer.ByteQueue.Compress | include/fitoria/core/dynamic_buffer.hpp:200-208 | the readable bytes move to the front unchanged |
| DynamicBuffer.ByteQueue.Release | include/fitoria/core/dynamic_buffer.hpp:192-197 | returns exactly the readable bytes |
| DynamicBuffer.ReadUntilEof | include/fitoria/web/async_read_until_eof.hpp:22-41 | the concatenation of all chunks, exactly when there is no stream error and the total stays within the limit; otherwise the first thing that goes wrong |
| ByteRanges.BoundedInside | include/fitoria/http/header/range.hpp:159-198 | a subrange that passes the bound check lies inside the file exactly when no 64-bit subtraction or addition wrapped, or the range is all of 0 to 2^64 - 1, whose length wraps to zero |
| ByteRanges.NoWrapMeans | include/fitoria/http/header/range.hpp:169-198 | the numbers for which every machine operation on the way gives the integer result: a suffix within the file, an open range that starts in it or at its end, a closed range that ends below 2^64 - 1 |
| ByteRanges.BoundedExactly | include/fitoria/web/static_file.hpp:211-211 | which elements the bound check lets through: all suffixes, all open ranges, and closed ranges that end in the file or at 2^64 - 1 |
| ByteRanges.BoundedIffSatisfiable | include/fitoria/web/static_file.hpp:211-211 | for which elements that check agrees with what section 14.1.2 of RFC 9110 calls satisfiable |
| ByteRanges.ResolveMeans | include/fitoria/http/header/range.hpp:169-198 | offset and length of every element, wrapped or not: those of section 14.1.2 of RFC 9110 where nothing wraps |
| ByteRanges.WrappedRangePasses | include/fitoria/http/header/range.hpp:169-193 | the concrete failures: a suffix of 1000 and an open range from 501, on 500 bytes |
| ByteRanges.RangeRoundTrip | include/fitoria/http/header/range.hpp:156-207 | print then parse is the identity on lists of positive lengths whose last byte a word can number |
| ByteRanges.SpecRoundTrip | include/fitoria/http/header/range.hpp:190-201 | the same for one element |
| ByteRanges.OpenParses | include/fitoria/http/header/range.hpp:190-193 | a number and a dash is the open range from it |
| ByteRanges.ElementsParse | include/fitoria/http/header/range.hpp:156-207 | a printed list of open and closed elements, mixed in any way and under any unit, parses back to it |
| ByteRanges.SuffixParses | include/fitoria/http/header/range.hpp:166-170 | a dash and a number is the suffix of that length, under any unit |
| ByteRanges.BackwardsRefused | include/fitoria/http/header/range.hpp:190-201 | an element that ends before it starts is refused |
| ByteRanges.MalformedRefused | include/fitoria/http/header/range.hpp:156-207 | a header without exactly one `=`, an element without exactly one dash, or one without a number in front of it, is refused |
| ByteRanges.Parse | include/fitoria/http/header/range.hpp:156-178 | unit, then a suffix or a list |
| ByteRanges.ParseSubranges | include/fitoria/http/header/range.hpp:181-207 | the loop over the elements, failing at the first that is malformed |
| ByteRanges.HeaderNonEmpty | include/fitoria/web/static_file.hpp:211-211 | a parsed list has a first element |
| FileStream.Stream.Whole | include/fitoria/web/async_readable_file_stream.hpp:30-35 | the whole file is to be delivered |
| FileStream.Stream.Part | include/fitoria/web/async_readable_file_stream.hpp:37-43 | the slice is to be delivered, as far as it exists |
| FileStream.Stream.AsyncReadSome | include/fitoria/web/async_readable_file_stream.hpp:55-87 | each chunk is the next piece of what is left, non-empty and at most 65536 bytes, and the remaining count falls; a failure means that a call on the file failed, and loses nothing; the end means nothing is left |
| FileStream.ReadAll | include/fitoria/web/async_readable_file_stream.hpp:55-87 | for every pattern of short reads the chunks join to exactly the slice, and the reading ends; it fails exactly when a call on the file does |
| StaticFile.Accept | include/fitoria/web/static_file.hpp:208-218 | only the first subrange, only the unit `bytes`, only within the bound |
| StaticFile.ElementsDecide | include/fitoria/web/static_file.hpp:208-218 | for every printed list of elements, what is served: nothing partial unless the unit is `bytes` in any case; else the first element alone decides, with the offset and length given by cases |
| StaticFile.SuffixDecides | include/fitoria/web/static_file.hpp:208-218 | the same for every suffix |
| StaticFile.LastBytes | include/fitoria/web/static_file.hpp:208-218 | `bytes=-n` on a file of at least n bytes is answered with its last n bytes |
| StaticFile.Open | include/fitoria/web/static_file.hpp:171-234 | precondition headers first, then the range |
| StaticFile.TagsDecide | include/fitoria/web/static_file.hpp:371-400 | a client that sends a list of tags is told that nothing changed exactly when one of them has the value of the file's tag |
| StaticFile.OthersDecide | include/fitoria/web/static_file.hpp:371-400 | `*` means unchanged, a malformed list an error; without a list the date decides, and without a date the file is sent |
| StaticFile.AcceptedExactly | include/fitoria/web/static_file.hpp:208-218 | an accepted range delivers as many bytes as it announces exactly when nothing wrapped, or it is all of 0 to 2^64 - 1 |
| StaticFile.ServedMeans | include/fitoria/web/static_file.hpp:269-285 | the body of a partial response is what section 14.1.2 of RFC 9110 says the element denotes if and only if the file is empty, or the suffix is no longer than the file, or the range is open, or it is closed and not all of 0 to 2^64 - 1 |
| StaticFile.WholeWordServesNothing | include/fitoria/web/static_file.hpp:208-218 | the concrete failure: `bytes=0-18446744073709551615` is accepted, and nothing is delivered of a non-empty file |
| StaticFile.OverlongRangeRefused | include/fitoria/web/static_file.hpp:208-218 | the concrete refusal: `bytes=0-999` on 500 bytes, which the standard answers with all of them |
| StaticFile.AcceptedDenoted | include/fitoria/web/static_file.hpp:283-284 | for any element, accepted or not: the slice computed for it is the one it denotes exactly on that condition |
| StaticFile.ServeRange | include/fitoria/web/static_file.hpp:283-284 | end to end: what a client reads is the accepted slice, unless a call on the file fails |
| StaticFile.ContentRangeComplete | include/fitoria/web/static_file.hpp:278-282 | the number printed after the slash is the complete length only when the part is as long as the file |
| StaticFile.ContentRangeText | include/fitoria/web/static_file.hpp:278-282 | the header names the first byte, the last byte and the length of the part |
| ChatRoom.StepKeepsInv | example/web/advanced/websocket_chat_server/chat_room.cpp:14-52 | every step of every session keeps the invariant |
| ChatRoom.RunKeepsInv | example/web/advanced/websocket_chat_server/session.cpp:17-59 | so does every interleaving of any length |
| ChatRoom.TableIsExact | example/web/advanced/websocket_chat_server/chat_room.cpp:14-31 | in every reachable state a pointer is in a room's set exactly when it is a registered session of that room not yet destroyed, and a room is kept exactly when it has a member |
| ChatRoom.BroadcastFindsRoom | example/web/advanced/websocket_chat_server/chat_room.cpp:41-45 | a running session's broadcast finds its room, so the section under the shared lock inserts nothing |
| ChatRoom.AudienceExact | example/web/advanced/websocket_chat_server/chat_room.cpp:42-44 | the snapshot is exactly the owned sessions of the sender's room |
| ChatRoom.SnapshotSays | example/web/advanced/websocket_chat_server/chat_room.cpp:33-52 | a broadcast carries its sender, the sender's room and the given text, and keeps them over every further run |
| ChatRoom.CastStays | example/web/advanced/websocket_chat_server/chat_room.cpp:33-52 | no step changes sender, room or text of a broadcast |
| ChatRoom.CastWasMade | example/web/advanced/websocket_chat_server/chat_room.cpp:33-52 | every broadcast of a run was made by one step of it, from that step's session and text |
| ChatRoom.SessionWasMade | example/web/advanced/websocket_chat_server/session.cpp:14-59 | every session of a run was constructed by one step of it, in the room of that step, with the next serial number |
| ChatRoom.DeliveredToOwnRoom | example/web/advanced/websocket_chat_server/chat_room.cpp:47-51 | whatever a session has queued was broadcast to its own room, once |
| ChatRoom.FinishedReachesAll | example/web/advanced/websocket_chat_server/chat_room.cpp:47-51 | after a broadcast has been through its audience every member that still runs has the message |
| ChatRoom.InboxGrows | example/web/advanced/websocket_chat_server/chat_room.cpp:47-51 | over any run an inbox only grows at its end, by exactly the broadcasts sent to that session, in the order of sending |
| ChatRoom.SendReaches | example/web/advanced/websocket_chat_server/chat_room.cpp:47-51 | a send adds its broadcast to the inbox of a session that is still running, and changes no other inbox |
| ChatRoom.BroadcastReaches | example/web/advanced/websocket_chat_server/chat_room.cpp:33-52 | a running session can always broadcast so that every running session of its room gets the message next, and nobody else gets anything |
| ChatRoom.Enters | example/web/advanced/websocket_chat_server/chat_room.cpp:14-18 | a session can always enter: it then runs in its room, with an empty inbox, and nothing else has changed |
| ChatRoom.Exits | example/web/advanced/websocket_chat_server/chat_room.cpp:20-31 | a running session can always go: it leaves memory and its room, and no other room changes |
| ChatRoom.Rooms.Join | example/web/advanced/websocket_chat_server/chat_room.cpp:14-18 | the table after a join |
| ChatRoom.Rooms.Leave | example/web/advanced/websocket_chat_server/chat_room.cpp:20-31 | the table after a leave: an empty room is closed |
| ChatRoom.Rooms.TakeSnapshot | example/web/advanced/websocket_chat_server/chat_room.cpp:40-45 | the loop under the lock collects a weak pointer of each owned member |
| ChatRoom.LeaveUndoesJoin | example/web/advanced/websocket_chat_server/chat_room.cpp:14-31 | leaving undoes joining for the whole table |
| ChatRoom.AsyncRead | example/web/advanced/websocket_chat_server/session.cpp:45-59 | each text up to the first other frame is broadcast under the user's name |
| Decompress.Handle | include/fitoria/web/middleware/decompress.hpp:35-75 | the next handler runs exactly when every listed coding is supported, always without the header, on the decoded body; if codings are inverse, a body coded in the listed order arrives restored |
| Decompress.DecodedInverts | include/fitoria/web/middleware/decompress.hpp:43-61 | undoing the codings from the last to the first restores the body (section 8.4 of RFC 9110) |
| Decompress.RemoveDropsLast | include/fitoria/web/middleware/decompress.hpp:84-93 | cutting the text at its last comma drops the last name and no other |
| Decompress.Undo | include/fitoria/web/middleware/decompress.hpp:44-59 | one turn of the loop |
| Decompress.NamedIs | include/fitoria/web/middleware/decompress.hpp:44-59 | which name means which coding, in any case, and which need a library to be built in |
| EntityTags.ListRoundTrip | include/fitoria/http/header/if_none_match.hpp:115-134 | print then parse is the identity exactly on non-empty lists of valid, comma-free tags |
| EntityTags.ParsedListable | include/fitoria/http/header/if_none_match.hpp:122-133 | whatever parses as a list is such a list |
| EntityTags.Parse | include/fitoria/http/header/if_none_match.hpp:115-134 | the loop over the tokens |
| EntityTags.TagRoundTrip | include/fitoria/http/header/entity_tag.hpp:98-153 | a tag survives print and parse exactly when its value is valid |
| EntityTags.ParsedPrints | include/fitoria/http/header/entity_tag.hpp:132-153 | nothing but printed tags is accepted |
| EntityTags.ParseOne | include/fitoria/http/header/entity_tag.hpp:132-153 | the narrowing of the input and the loop over its characters |
| EntityTags.ValueChars | include/fitoria/http/header/entity_tag.hpp:98-153 | the characters that a tag may hold |
| EntityTags.TagTexts | include/fitoria/http/header/entity_tag.hpp:98-153 | a strong tag, a weak tag and a list of both, written out |
| EntityTags.SentBackMatches | include/fitoria/web/static_file.hpp:378-383 | a client that sends a tag back, in any list, weak or strong, is told nothing changed |
| EntityTags.MatchesExactly | include/fitoria/web/static_file.hpp:378-383 | a list of tags matches exactly when one of them has the current value, weak or strong |
| EntityTags.StarMatches | include/fitoria/web/static_file.hpp:378-383 | `*` matches every tag |
| MimeTypes.MimeRoundTrip | include/fitoria/mime/mime_view.hpp:167-200 | for parameters with distinct names, print then parse is the identity exactly on valid names |
| MimeTypes.MimeParses | include/fitoria/mime/mime_view.hpp:286-333 | valid parts and parameters always come back, a later parameter overwriting an earlier one of the same name |
| MimeTypes.ParsedValid | include/fitoria/mime/mime_view.hpp:335-346 | parsing yields nothing but valid names |
| MimeTypes.NameChars | include/fitoria/mime/mime_view.hpp:335-346 | which characters a name may hold, and which may come first |
| MimeTypes.ParamTyped | include/fitoria/mime/mime_view.hpp:286-333 | a type with one parameter, written out, and everything that is read from it |
| MimeTypes.StoredLast | include/fitoria/mime/mime_view.hpp:317-333 | a parameter is found under its name in any case, exactly when it was given in some case, with the last value given |
| MimeTypes.MalformedRefused | include/fitoria/mime/mime_view.hpp:286-333 | anything but one slash, at most one plus sign behind it, and one `=` in a parameter is refused |
| MimeTypes.SuffixTyped | include/fitoria/mime/mime_view.hpp:286-333 | the same for a type with a suffix |
| MimeTypes.Parse | include/fitoria/mime/mime_view.hpp:167-200 | primary part, then parameters; the result keeps the whole text and the essence in front of the parameters |
| MimeTypes.ParseParams | include/fitoria/mime/mime_view.hpp:317-333 | the loop that fills the map |
| Strings.SplitJoin | include/fitoria/core/strings.hpp:121-136 | joining bare, delimiter-free texts and splitting again gives them back |
| Strings.SplitPieces | include/fitoria/core/strings.hpp:121-136 | every piece is bare and free of delimiters |
| Strings.SplitLast | include/fitoria/core/strings.hpp:121-136 | a text cut at any delimiter splits into the pieces before it and the pieces after it; here the last piece |
| Strings.SplitCounts | include/fitoria/core/strings.hpp:121-136 | one piece more than there are delimiters, empty pieces included |
| Strings.SplitOf | include/fitoria/core/strings.hpp:121-136 | the loop |
| Strings.TrimmedOf | include/fitoria/core/strings.hpp:116-119 | whatever blanks surround a bare text, trimming finds that text |
| Strings.TrimmedMeans | include/fitoria/core/strings.hpp:116-119 | every text is blanks, its trimmed middle, and blanks |
| Strings.Trim | include/fitoria/core/strings.hpp:66-119 | the two loops |
| Strings.BlankListed | include/fitoria/core/strings.hpp:66-119 | the six blanks |
| Strings.CompareIgnoringCase | include/fitoria/core/strings.hpp:29-64 | the loop of the three-way comparison |
| Strings.CompareOrders | include/fitoria/core/strings.hpp:21-64 | the two comparisons agree, and swapping the texts flips the order |
| Strings.CompareTransitive | include/fitoria/core/strings.hpp:29-64 | the order is transitive |
| Strings.EqualLetters | include/fitoria/core/strings.hpp:21-27 | equal up to case means equally long and, at each place, the same character or the two cases of one letter of the listed alphabets |
| Strings.CompareLetters | include/fitoria/core/strings.hpp:29-64 | the order of two characters, in which the two cases of a letter count as one |
| Strings.FromToString | include/fitoria/core/detail/from_string_impl.hpp:27-44 | a printed 64-bit number reads back as itself |
| Strings.DigitRead | include/fitoria/core/detail/from_string_impl.hpp:27-44 | each further digit counts ten times what stands before it, until the value exceeds 64 bits, which is refused |
| Strings.OnlyDigits | include/fitoria/core/detail/from_string_impl.hpp:27-44 | no other character is accepted, and not the empty text |
| Strings.DigitPrinted | include/fitoria/core/detail/from_string_impl.hpp:27-44 | the printed form is digit by digit, without a zero in front |
| Strings.LeadingZero | include/fitoria/core/detail/from_string_impl.hpp:27-44 | leading zeros change nothing |

## Left out

- Regular expressions: static text is matched literally, a parameter as one or more characters that are neither brace nor slash, a wildcard as any text. Metacharacters in static text and the syntax of group names are not modelled, and neither is the string that `to_regex` builds.
- Sockets, TLS, timers, the HTTP session loop, WebSocket framing and logging: library calls and I/O.
- zlib, Brotli and the inflate and deflate loops: each coding is a function with an inverse, applied to a whole body.
- Extractors, `query_map`, `header_map`, `expected`, `optional`: thin layers over library containers.
- Date parsing: `If-Modified-Since` enters as its outcome. MIME constants and the extension table: finite tables.
- Signed `char`: base64 works on bytes 0 to 255. Entity-tag characters are those of a signed 8-bit `char`, 0x21 to 0x7f.
- `boost::urls` path decoding: the path that reaches the router is a parameter.
- `entity_tag` setters, `static_file::release` and `set_content_type`: single assignments.
- DynamicBuffer.Filled: of a copy into a region that ends past the container, only the part inside is kept; the rest would be written outside the container's size, where the model has no memory.
- DynamicBuffer.ByteQueue.Release: the container after the move is taken to be empty, as it is for a vector.
- DynamicBuffer.RunRefinesQueue: a prepared region is filled at once, before the next call. A `consume` that takes the last readable byte gives up what was written and not committed, because the offsets then move to the front; any other `consume` keeps it. A `prepare` whose region does not fit ends the runs it speaks of, because part of what is written there is outside the container; one such call is the subject of `DynamicBuffer.PutExact`.
- RouterHeap.TreeNode.TryInsert: a route handle is the route's verb, tokens and a number standing for the service; services are run only in `ScopeFlatten`.
- RouterHeap.TreeNode.ReorderStatics: the ordered multimap of counts and moved nodes is an insertion by count followed by one rewriting of the child list.
- FileStream.ReadAll: the operating system's answer to each read and seek is arbitrary, but a read that succeeds on a non-empty buffer is taken to yield at least one byte.
- ServerBuild.AnswersRight: safe splits are sufficient for a built server and not necessary, because `optimize` may put a sibling in front of the one that shadows it. The exact condition, `ServerBuild.AlwaysRightIff`, speaks of the tree that results and of all paths; no finite check of it is given.
- ChatRoom.StepKeepsInv: joining, leaving and taking a snapshot are atomic, as the mutex makes them; a send is atomic and always queued, and a coroutine cut off in the middle of a broadcast is one that takes no further step.
- StateMaps.BuildScope: types and values are numbers, and each route of a chain is built from its own calls, so a route object used twice is covered by `StateMaps.CopyInsertFront` only; scope values used more than once are in `StateForks`, with child scopes that are single chains.
- ScopeFlatten.FlatteningKeepsMeaning: the compile-time checks that each joined path parses are not part of it; `PathConcat.ConcatIsFuse` says when they pass.
- Decompress.Handle: the body is a value, not a stream, and the request's other parts are left as they are.
