# A verified model of mycppwebfw

Dafny 4.11 models of the stateful cores of the C++ web framework, with proofs of what they promise.
`dafny verify dfyconfig.toml` checks everything.

- **Router.** `Text` and `Patterns` split paths and read pattern segments, `PatternTexts` how they are spelled. `Tries`
  describes the per-method trie as a map from paths to node records; `TrieNodes` is the tree of node objects that the
  registration code walks and updates, tied to that description. `Matcher` is the two recursive searches over the
  objects, `Bindings` what the second one writes. `RouteTable` is the plain list of registrations, `LinearScan` matching
  by scanning it, `MatchedParams` the parameters of a match read off the pattern. `Substitution` and `ReverseRouting`
  build URLs and match them again. `Routers`, `RouteGroups` and `RouterAsScan` are the router as its users see it: from
  any script of registrations to the answer of `match_route`; `NamedRoutes` goes from a name to its URL and back,
  `StoredRoutes` says what a router holds for each registration, `LastSegments` what routes with one dynamic segment
  answer. `Sequences` is shared by the sorts.
- **HTTP.** `HttpParser` is the 20-state byte machine, `HttpGrammar` its language, `HttpMessages` split input, viable
  prefixes and round trips with the response printer. `Requests` holds the request object with the query and cookie
  parsers. Characters are meant to be 7-bit.
- **Connections.** `BufferPools`, `Connections` and `Servers`: completion handlers over connection objects, the manager
  and the pool, and every run of them; `Histories` tells a connection's state from the list of completions alone. The
  socket is assumed to behave as after a close: no operation succeeds any more, and a read is aborted only by closing.
  The exact assumptions are the conditions of `ReadSettles` and `WriteSettles`.
- **Thread pool.** `ThreadPools` interleaves the atomic steps of workers, enqueuers and the destructor.
- **Middlewares.** `Middlewares` has both chains, with arbitrary middlewares: scripts of `next` calls, inside or outside
  a try block, and throws. A middleware runs at most once per chain, so a script per middleware is general.
- **Token bucket.** `TokenBuckets`, over real numbers.

`std::sort` is any permutation in order, and iteration over a hash map any order. `std::regex_match` is a parameter, a
relation between pattern and text; a malformed pattern matches nothing.

## Model

| member | source | states |
|---|---|---|
| `Patterns.SplitPath` | mycppwebfw/src/routing/route_matcher.cpp:15-24 | the `getline` loop gives exactly the non-empty pieces between slashes |
| `Patterns.SegmentsOfJoin` | mycppwebfw/src/routing/route_matcher.cpp:15-24 | joining clean segments with slashes and splitting again gives them back |
| `PatternTexts.SegmentRoundTrip` | mycppwebfw/src/routing/router.cpp:132-172 | reading a printed segment (a literal, `:name`, `:name?`, `:name=default`, `*name`, `<name:regex>`) gives back its kind, name, option, default and regex exactly when it is printable |
| `PatternTexts.EverySpelling` | mycppwebfw/src/routing/router.cpp:132-172 | every segment that can be read is a printed one or one of four other spellings of it: `:name=default?`, `:name=`, `:name=?`, `<name>` for the regex `.*` |
| `PatternTexts.OthersReadTheSame` | mycppwebfw/src/routing/router.cpp:138-172 | those other spellings read as the printed one does |
| `PatternTexts.PatternRoundTrip` | mycppwebfw/src/routing/router.cpp:111-172 | reading a printed path gives back all its segments |
| `TrieNodes.RouteTree.AddRoute` | mycppwebfw/src/routing/router.cpp:105-227 | the in-place walk over node objects turns the tree into the one that the registration function describes, and keeps the tree well formed |
| `TrieNodes.RouteTree.AddStaticRoute` | mycppwebfw/src/routing/router.cpp:56-87 | the same for `add_static_route` |
| `TrieNodes.RouteTree.FindOrAdd` | mycppwebfw/src/routing/router.cpp:174-178 | looks a child up by its stripped part, adding it when missing; every other node is undisturbed |
| `Tries.SearchFindsCandidates` | mycppwebfw/src/routing/route_matcher.cpp:26-106 | the recursive search collects exactly the nodes declared reachable: exact, behind a last-position wildcard, optional child, or static-files prefix |
| `Matcher.Search.FindMatches` | mycppwebfw/src/routing/route_matcher.cpp:29-106 | the search over node objects pushes exactly those nodes, whatever order children come in; each call moves on to a later segment |
| `Matcher.Search.Recalculate` | mycppwebfw/src/routing/route_matcher.cpp:126-197 | the second search says whether the chosen node is reachable by consuming every segment, writes its bindings if so and leaves the map untouched if not, whatever order children come in |
| `Matcher.Collect` | mycppwebfw/src/routing/route_matcher.cpp:29-106 | the search pushes exactly the candidates, each a node of the tree |
| `Matcher.Bind` | mycppwebfw/src/routing/route_matcher.cpp:123-207 | clears the map and fills it with the final parameters of the chosen node |
| `Matcher.SortByPriority` | mycppwebfw/src/routing/route_matcher.cpp:119-120 | some permutation in falling priority |
| `Matcher.Match` | mycppwebfw/src/routing/route_matcher.cpp:10-210 | answers a best candidate with its final parameter map, or the catch-all root, or nothing with the map untouched |
| `Matcher.BestIsFirst` | mycppwebfw/src/routing/route_matcher.cpp:119-122 | the first node after sorting has at least the priority of every declaratively reachable node |
| `Bindings.SearchesAgree` | mycppwebfw/src/routing/route_matcher.cpp:26-106 | the second search succeeds exactly for nodes reached by consuming every segment |
| `Bindings.BindingsAsDeclared` | mycppwebfw/src/routing/route_matcher.cpp:126-199 | on such a node the map written is exactly the bindings of the root-to-node walk (first occurrence of a name wins, a wildcard takes the rest) if and only if no first occurrence of a name is spelled by its own segment |
| `Bindings.OwnNameNeverBound` | mycppwebfw/src/routing/route_matcher.cpp:138-146 | no name is ever bound to itself, because the lookup by key takes precedence |
| `Bindings.WildcardLossless` | mycppwebfw/src/routing/route_matcher.cpp:73-87 | splitting a captured wildcard value on slashes gives back exactly the remaining request segments |
| `RouteTable.RegisterIsAdd` | mycppwebfw/src/routing/router.cpp:121-227 | registering an entry is what `add_route` and `add_static_route` do to the trie |
| `RouteTable.BuiltDescribesAt` | mycppwebfw/src/routing/router.cpp:89-228 | after any clash-free registrations, node by node: it is there, of its kind, with its handler, middlewares, priority and flags, exactly because of the table |
| `LinearScan.TrieRefinesScan` | mycppwebfw/src/routing/route_matcher.cpp:26-117 | the trie has a candidate exactly when a linear scan of the registrations finds a match |
| `LinearScan.MatchIsScan` | mycppwebfw/src/routing/route_matcher.cpp:10-210 | for a clash-free table a node is answered exactly when some registration matches or there is a catch-all, and it ends a best matching registration; for the plain scan this needs a name-fresh request |
| `LinearScan.BestIsBestEntry` | mycppwebfw/src/routing/route_matcher.cpp:119-122 | the winner ends a matching registration, and no matching registration in the clear has a higher priority |
| `LinearScan.TableIsOrdinary` | mycppwebfw/src/routing/router.cpp:154-158 | when wildcards come last in the patterns, every node meets the conditions of the binding theorem |
| `MatchedParams.MatchBindings` | mycppwebfw/src/routing/route_matcher.cpp:122-209 | when wildcards come last, the parameters of a match are exactly what the answering registration's pattern binds by the code's rule, with its default value; on a name-fresh request exactly what the pattern declares |
| `MatchedParams.MissingOptional` | mycppwebfw/src/routing/route_matcher.cpp:201-207 | a request that leaves a last optional parameter out gets its default, if any, and no other parameter |
| `MatchedParams.MissingOptionalKeeps` | mycppwebfw/src/routing/route_matcher.cpp:126-207 | so what the segments before it bound survives exactly when they bind no name but its own |
| `LastSegments.OptionalLosesOthers` | mycppwebfw/src/routing/route_matcher.cpp:126-207 | "/:user/:page=1" requested as "/x" is answered with page = 1 and without user |
| `LastSegments.MatchesRest` | mycppwebfw/src/routing/route_matcher.cpp:26-106 | a route of literals and one last segment matches exactly the requests with its literals and a rest that the segment takes: one segment for a parameter, none for an optional one, at least one for a wildcard, one that the regex accepts or that is the very name |
| `LastSegments.PrevailingAnswers` | mycppwebfw/src/routing/route_matcher.cpp:10-210 | among any other registrations such a route, if none outranks it, answers those requests, and the parameters are exactly the value given, the rest joined by slashes for a wildcard, or the default when nothing or just the name is given |
| `LastSegments.OnlyRouteAnswers` | mycppwebfw/src/routing/router.cpp:279-374 | a router with such a route alone answers exactly the requests that it takes |
| `LinearScan.ClashHidesRoute` | mycppwebfw/src/routing/router.cpp:174-178 | "/a" and "/:a" share one node, so "/b" is refused although a pattern matches it |
| `LinearScan.NameBypassesRegex` | mycppwebfw/src/routing/route_matcher.cpp:59-63 | under "/<id:x>" the request "/id" is answered although the regex refuses it |
| `Substitution.Fill` | mycppwebfw/src/routing/router.cpp:262-276 | the in-place replacement loop fills the parameters in, in some order |
| `Substitution.OrderDoesNotMatter` | mycppwebfw/src/routing/router.cpp:262-276 | with pairwise prefix-free names, once each, every order of the parameters gives the same string, piece by piece |
| `Substitution.PlainIsUnambiguous` | mycppwebfw/src/routing/router.cpp:262-276 | placeholders are unambiguous when each literal piece holds none of them, a colon in it or not, and no other placeholder starts like one |
| `ReverseRouting.OneUrl` | mycppwebfw/src/routing/router.cpp:262-276 | when the placeholders are unambiguous in the path, the URL is the path with each one replaced by its value, whatever order the parameters come in |
| `ReverseRouting.UrlSegments` | mycppwebfw/src/routing/router.cpp:249-277 | the filled-in URL splits into the pattern's segments with each placeholder replaced by its value |
| `ReverseRouting.HighestIsAnswer` | mycppwebfw/src/routing/router.cpp:249-277 | the route's node is the answer when every other matching registration has a lower priority |
| `ReverseRouting.RoundTrip` | mycppwebfw/src/routing/router.cpp:249-277 | matching the URL built from a parameter map gives back exactly that map, for every order of filling, if and only if no value spells its own parameter's name |
| `ReverseRouting.OwnNameIsLost` | mycppwebfw/src/routing/route_matcher.cpp:138-146 | the failing family: "/dir/:name" filled with the name itself is answered and the map comes back empty |
| `Routers.Router.constructor` | mycppwebfw/src/routing/router.cpp:14-17 | no trees, no names, and the error handler as the only global middleware |
| `Routers.Router.Use` | mycppwebfw/src/routing/router.cpp:376-379 | appends a global middleware; the error handler stays |
| `Routers.Router.AddRoute` | mycppwebfw/src/routing/router.cpp:89-228 | registers in the method's tree and records the name, or raises exactly when the name is taken, with nothing changed |
| `Routers.Router.AddStaticRoute` | mycppwebfw/src/routing/router.cpp:56-87 | registers in the GET tree |
| `Routers.Router.UrlFor` | mycppwebfw/src/routing/router.cpp:249-277 | the filled-in path of the named route, or the empty string |
| `Routers.Router.MatchRoute` | mycppwebfw/src/routing/router.cpp:279-374 | dispatches on the overridden method; the parameters are untouched by the probing of other methods |
| `Routers.HeaderOverrides` | mycppwebfw/src/routing/router.cpp:284-290 | a first `X-HTTP-Method-Override` header that is not empty is the method, whatever the query says |
| `Routers.QueryOverrides` | mycppwebfw/src/routing/router.cpp:291-300 | otherwise the last `_method` meant by a printed query is the method, and without one, or without a query, it is the request's own |
| `Routers.Router.Probe` | mycppwebfw/src/routing/router.cpp:347-358 | the other methods whose trees match, without repeats |
| `Routers.Router.NothingIffNoMethod` | mycppwebfw/src/routing/router.cpp:279-374 | nothing is returned to be run exactly when no method's tree matches, and the refusal with the status of a bad request exactly when only others match |
| `Routers.Router.Handle` | mycppwebfw/src/routing/router.cpp:323-335 | global and route middlewares in some order of non-decreasing priority around the node's handler, and which exceptions get out of it |
| `RouterAsScan.RegisterAll` | mycppwebfw/src/routing/router.cpp:56-228 | a script of registrations leaves the content that the calls describe, stopping where one raises |
| `RouterAsScan.RouterIsBuilt` | mycppwebfw/src/routing/router.cpp:56-228 | after any registrations a method's tree is the trie built of the registrations made for that method |
| `RouterAsScan.MatchRouteIsScan` | mycppwebfw/src/routing/router.cpp:279-374 | `match_route` runs something exactly when a registration for the effective method matches or is its catch-all; what it runs is the handler, middlewares or directory of a best one, and with wildcards last the caller's parameters become what that registration's pattern binds; otherwise the allowed methods are exactly the others that match |
| `NamedRoutes.NameKept` | mycppwebfw/src/routing/router.cpp:94-103 | whatever was registered, a name keeps the path it came with |
| `NamedRoutes.RouterRoundTrip` | mycppwebfw/src/routing/router.cpp:249-374 | whatever was registered, the URL built for a named plain route of highest priority, requested with its method, is answered by its node, and exactly the parameters put in come back if and only if none spells its own name |
| `StoredRoutes.RouteStored` | mycppwebfw/src/routing/router.cpp:89-228 | at the end of the pattern, in the tree of the method, the router holds the handler and middlewares of the last call for it, and its priority or 3, 2 or 1 by the kind of its last segment |
| `StoredRoutes.FilesStored` | mycppwebfw/src/routing/router.cpp:56-87 | files are served from the directory registered last, to GET requests for the path and all below it |
| `StoredRoutes.CatchAllAnswers` | mycppwebfw/src/routing/router.cpp:121-127 | once "/" is registered for a method, every request made with it is answered |
| `StoredRoutes.HigherKindAnswers` | mycppwebfw/src/routing/router.cpp:210-227 | without explicit priorities, when a route matches a request, a route that ends in a lower kind does not answer it: literal over parameter over wildcard over regex |
| `StoredRoutes.Grouped` | mycppwebfw/src/routing/router.cpp:230-247 | a new router after the callback of a top group holds the flat calls and nothing else, unless one raised |
| `StoredRoutes.GroupedRouteStored` | mycppwebfw/src/routing/router.cpp:30-54 | a route in nested groups, whatever else they register, is stored under all prefixes and its path with the middlewares of the outermost group first and its own last |
| `NamedRoutes.RegistersIfNamedOnce` | mycppwebfw/src/routing/router.cpp:94-101 | a script of registrations goes through exactly when no name is given twice |
| `NamedRoutes.NamesListed` | mycppwebfw/src/routing/router.cpp:94-103 | the names known are exactly those given |
| `RouterAsScan.GroupsAreRegistrations` | mycppwebfw/src/routing/router.cpp:30-54 | the calls that groups make are such a script |
| `RouteGroups.RouteGroup.Run` | mycppwebfw/src/routing/router.cpp:30-54 | any tree of nested groups leaves the router as the flat sequence of literal calls with concatenated prefixes and outer-to-inner middlewares, up to a call that raises |
| `RouteGroups.RouteGroup.AddRoute` | mycppwebfw/src/routing/router.cpp:30-41 | makes the router's call with the path behind the group's prefix and the group's middlewares in front of its own, all else as given |
| `RouteGroups.RouteGroup.Group` | mycppwebfw/src/routing/router.cpp:43-54 | a nested group has the joined prefix and middlewares |
| `RouteGroups.CallsAreFlat` | mycppwebfw/src/routing/router.cpp:30-54 | wrapping the calls of inner groups from the inside out gives the same as carrying prefixes and middlewares down |
| `RouteGroups.GroupedCall` | mycppwebfw/src/routing/router.cpp:30-54 | groups nested around one call make the one call with all prefixes and then its path, all lists and then its own |
| `Requests.ScanQuery` | mycppwebfw/src/http/request.cpp:42-62 | the single pass over the characters computes the pairs of the pieces between ampersands, a piece without `=` keeping the key before it |
| `Requests.QueryRoundTrip` | mycppwebfw/src/http/request.cpp:14-64 | a printed path and query give back the path and the last value of every key; a piece without `=` goes to the key before it, and anything before the last two parts of a piece is dropped |
| `Requests.BarePieceOverwrites` | mycppwebfw/src/http/request.cpp:42-62 | "a=1&b" means a = "b" |
| `Requests.OnePairRoundTrip` | mycppwebfw/src/http/request.cpp:46-61 | one pair comes back exactly when neither half holds `=`: only the last two parts of a piece count |
| `Requests.Request.ReadsItself` | mycppwebfw/src/http/request.cpp:14-34 | the path is what stands before the question mark, and a header's value is that of the first one of its name, or empty |
| `Requests.ParseCookies` | mycppwebfw/src/middleware/session.cpp:12-37 | the loop computes the map of the pieces between semicolons, later ones replacing earlier ones |
| `Requests.CookieRoundTrip` | mycppwebfw/src/middleware/session.cpp:12-37 | pieces joined by semicolons give the last value of every name: blanks before a name do not count, values may hold `=`, a piece without `=` changes nothing |
| `HttpParser.Parser.Consume` | mycppwebfw/src/http/parser.cpp:12-170 | one byte does to the state and the request what the step function says, in each of the 20 states; a verdict changes nothing |
| `HttpParser.Parser.Parse` | mycppwebfw/src/http/parser.cpp:9-173 | one call advances state and request as the run over its bytes; it never uses the last header when there is none |
| `HttpParser.Run` | mycppwebfw/src/http/parser.cpp:114-171 | the header list is non-empty in every reachable state that writes to its last header |
| `HttpGrammar.PeelOne` | mycppwebfw/src/http/parser.cpp:12-170 | the first byte of a legal text is accepted, the rest is legal again, and nothing of the meaning is lost |
| `HttpGrammar.Accepts` | mycppwebfw/src/http/parser.cpp:9-173 | every legal text is accepted from every state, whatever follows, with the fields it means |
| `HttpGrammar.Understand` | mycppwebfw/src/http/parser.cpp:9-173 | every accepted input starts with a legal text |
| `HttpMessages.Language` | mycppwebfw/src/http/parser.cpp:9-173 | the accepted inputs are exactly those that start with a legal request, its alphabets given by character codes |
| `HttpMessages.RequestIsAccepted` | mycppwebfw/src/http/parser.cpp:9-173 | a legal request gives exactly its method, URI, version by place value, and headers |
| `HttpMessages.Alphabets` | mycppwebfw/src/http/parser.cpp:12-170 | the classes the parser tests for are letters, digits, blanks, and what is neither control nor separator, by code |
| `HttpMessages.RunJoined` | mycppwebfw/src/http/parser.cpp:9-173 | reading two pieces in turn up to a verdict is reading them joined; GOOD and BAD are stable |
| `HttpMessages.ReadAll` | mycppwebfw/src/http/parser.cpp:9-173 | any split of the input into pieces gives the same verdict, state and request as one call |
| `HttpMessages.ViablePrefix` | mycppwebfw/src/http/parser.cpp:9-173 | the input is not rejected exactly while some continuation is accepted |
| `HttpMessages.FoldedValue` | mycppwebfw/src/http/parser.cpp:114-135 | a folded header's value is the concatenation of its pieces without leading blanks |
| `HttpMessages.DigitsRoundTrip` | mycppwebfw/src/http/parser.cpp:70-102 | reading a printed number gives it back |
| `HttpMessages.OverflowOnlyAtEnd` | mycppwebfw/src/http/parser.cpp:70-102 | no step of reading a version number overflows exactly when the number itself fits |
| `HttpMessages.NineDigits` | mycppwebfw/src/http/parser.cpp:70-102 | at most nine digits never overflow |
| `HttpMessages.TenDigitsOverflow` | mycppwebfw/src/http/parser.cpp:70-102 | ten digits may |
| `HttpMessages.Response.ToBuffers` | mycppwebfw/src/http/response.cpp:73-87 | the buffers are the status line, each header as name, ": ", value and line end, an empty line, the content |
| `HttpMessages.StatusLineSpelt` | mycppwebfw/src/http/response.cpp:8-62 | the line of each of the sixteen codes is "HTTP/1.0 ", the code in decimal, a space, a reason and a line end |
| `HttpMessages.StatusLinesDiffer` | mycppwebfw/src/http/response.cpp:41-62 | different codes have different lines; any other code gets that of 500 |
| `HttpMessages.RoundTrip` | mycppwebfw/src/http/response.cpp:73-87 | a request line with headers printed in that layout parses back to exactly the same fields if and only if they are legal, by character codes |
| `HttpMessages.AcceptedIsLegal` | mycppwebfw/src/http/parser.cpp:9-173 | whatever is accepted has a non-empty alphabetic method, a clean URI and legal headers |
| `BufferPools.BufferPool.constructor` | mycppwebfw/include/mycppwebfw/core/buffer_pool.h:32-40 | a full pool of distinct buffers, none of them out |
| `BufferPools.BufferPool.Acquire` | mycppwebfw/include/mycppwebfw/core/buffer_pool.h:42-57 | a buffer nobody holds, from the back of the pool if there is one; none exactly when the pool is empty and the limit reached |
| `BufferPools.BufferPool.Release` | mycppwebfw/include/mycppwebfw/core/buffer_pool.h:59-68 | pools or frees the buffer; the accounts stay right exactly when it was out |
| `BufferPools.BufferPool.PoolLaws` | mycppwebfw/include/mycppwebfw/core/buffer_pool.h:31-68 | total = pooled + outstanding, at least the pool size, which is at least what is pooled; the memory bound under a fixed positive limit; the initial state once everything is back |
| `BufferPools.UsePool` | mycppwebfw/include/mycppwebfw/core/buffer_pool.h:42-68 | every run of a client that gives each buffer back at most once keeps these laws |
| `Connections.Connection.constructor` | mycppwebfw/src/core/connection.tpp:13-19 | takes a buffer that nobody holds |
| `Connections.Connection.Shutdown` | mycppwebfw/src/core/connection.tpp:32-42 | closes, and gives the buffer back the first time only |
| `Connections.Connection.OnRead` | mycppwebfw/src/core/connection.tpp:49-103 | the read handler: on to the next read, to the write, to closing, or nothing on an abort |
| `Connections.Connection.OnWrite` | mycppwebfw/src/core/connection.tpp:111-128 | the write handler: reads again on a kept-alive connection, else stops |
| `Connections.Connection.OnTimer` | mycppwebfw/src/core/connection.tpp:131-169 | a timer closes only in the state it waits in |
| `Connections.ConnectionManager.Start` | mycppwebfw/include/mycppwebfw/core/connection_manager.h:37-41 | lists the connection and starts it reading |
| `Connections.ConnectionManager.Stop` | mycppwebfw/include/mycppwebfw/core/connection_manager.h:43-47 | drops the connection and shuts it down |
| `Connections.ConnectionManager.StopAll` | mycppwebfw/include/mycppwebfw/core/connection_manager.h:49-55 | closes and forgets every connection; no buffer stays out |
| `Connections.ReadSettles` | mycppwebfw/src/core/connection.tpp:49-103 | a read handler keeps a settled connection settled exactly unless bytes arrive after closing or an abort comes before it |
| `Connections.WriteSettles` | mycppwebfw/src/core/connection.tpp:111-128 | a write handler keeps it settled exactly unless a kept-alive write succeeds after closing |
| `Connections.TimerSettles` | mycppwebfw/src/core/connection.tpp:131-169 | timer handlers may fire at any time; the idle timer's never does anything |
| `Servers.Server.OnAccept` | mycppwebfw/src/core/server.cpp:42-58 | an accepted connection takes a buffer, is listed and reads; nothing happens once the acceptor is closed |
| `Servers.Server.OnHandler` | mycppwebfw/src/core/connection.tpp:45-169 | a completion handler of any connection does to its object what it does to its value; every other connection, the list and the pool stay in step |
| `Servers.Server.GracefulShutdown` | mycppwebfw/src/core/server.cpp:60-69 | everything is closed, and the pool is as it was at the start |
| `Servers.Server.Run` | mycppwebfw/src/core/server.cpp:36-69 | any run of completion handlers, in any order, does to the objects what it does to the system of values, and keeps the invariant over connections, manager and pool |
| `Servers.RunSettles` | mycppwebfw/src/core/connection.tpp:14-169 | over every run each connection has given its buffer back once if closed and never otherwise, Closed is never left, and nothing is open again after a shutdown |
| `Histories.RunTold` | mycppwebfw/src/core/connection.tpp:14-169 | over every run, from the event list alone: how many connections there are, which are closed, which operation each open one waits for, and how many reads and writes it has started. A finished request or a failed read starts one write, an unfinished one another read, a kept-alive answer another read; any other write, a failure, the timer it waits with and a shutdown close it |
| `Histories.NextOperation` | mycppwebfw/src/core/connection.tpp:49-169 | an open connection has one operation in flight, and what each completion starts or closes |
| `Histories.ServeAll` | mycppwebfw/src/core/server.cpp:36-69 | the same law of the connection objects of a new server after any run |
| `Servers.Server.Conservation` | mycppwebfw/include/mycppwebfw/core/connection_manager.h:37-55 | between handlers: listed, not closed and holding a buffer are the same; no buffer has two holders; the pool's total is what is pooled and one for each listed connection |
| `ThreadPools.ThreadPool.Enqueue` | mycppwebfw/include/mycppwebfw/core/thread_pool.h:64-71 | queues the task under the mutex, a notification to follow |
| `ThreadPools.ThreadPool.TestPredicate` | mycppwebfw/src/core/thread_pool.cpp:49 | the wait's predicate |
| `ThreadPools.ThreadPool.TakeOrExit` | mycppwebfw/src/core/thread_pool.cpp:50-55 | exits when stopping with nothing queued, else takes the front |
| `ThreadPools.ThreadPool.Run` | mycppwebfw/src/core/thread_pool.cpp:44-58 | any interleaving takes the fields through the states of the run, and from the start leaves a sound state |
| `ThreadPools.StepKeeps` | mycppwebfw/src/core/thread_pool.cpp:44-58 | every step of every thread keeps the invariant |
| `ThreadPools.TakeIsSafe` | mycppwebfw/src/core/thread_pool.cpp:53-54 | a worker past the wait never takes the front of an empty queue |
| `ThreadPools.RunIsSound` | mycppwebfw/src/core/thread_pool.cpp:44-58 | in every interleaving tasks leave the queue in enqueue order, none twice; before stop a queued task has an awake worker or a notification under way; once all workers have exited every task has run exactly once |
| `ThreadPools.HistoryGrows` | mycppwebfw/src/core/thread_pool.cpp:53-56 | what was enqueued, started or finished stays so |
| `ThreadPools.CanGoOn` | mycppwebfw/src/core/thread_pool.cpp:44-58 | while a task is queued the pool can go on by itself |
| `ThreadPools.StopCanBeMissed` | mycppwebfw/src/core/thread_pool.cpp:13-19 | the destructor's notification can be missed for good exactly when a worker is between its test and its wait |
| `ThreadPools.MissedFromStart` | mycppwebfw/src/core/thread_pool.cpp:13-19 | a run from the start of a one-worker pool that ends so |
| `Middlewares.MiddlewareChain.Next` | mycppwebfw/src/middleware/middleware_chain.cpp:13-24 | one call of `next`, re-entered through the middlewares, does what the run function says |
| `Middlewares.CountingLaw` | mycppwebfw/src/middleware/middleware_chain.cpp:13-24 | those run are a prefix, each once and in order; the final handler runs 1 + sum of (calls made - 1) times over them, exceptions included |
| `Middlewares.QuietLaw` | mycppwebfw/src/middleware/middleware_chain.cpp:13-24 | without exceptions the chain stops behind the shortest prefix that uses up its calls, or behind the list |
| `Middlewares.FullyNested` | mycppwebfw/src/middleware/middleware_chain.cpp:13-24 | when each calls `next` once the trace is fully nested |
| `Middlewares.MiddlewareChainBuilder.Run` | src/utils/middleware_utils.cpp:11-21 | the shared iterator walks as the walk function says |
| `Middlewares.ChainsAgree` | src/utils/middleware_utils.cpp:11-21 | the builder's chain gives the same trace and exceptions as the other chain with an empty final handler |
| `Middlewares.ErrorBoundary` | mycppwebfw/src/middleware/error_handler.cpp:19-42 | when each middleware calls `next` at most once, an exception escapes exactly when a middleware in front of the handler throws and those before it let it through |
| `Middlewares.Sort` | mycppwebfw/src/routing/router.cpp:331 | some order of non-decreasing priority |
| `Middlewares.PriorityBoundary` | mycppwebfw/src/routing/router.cpp:323-335 | some order that sorting may give lets an exception escape exactly when a thrower has priority at most 100; every order does exactly when one has less |
| `Middlewares.OneCallNeeded` | mycppwebfw/src/middleware/error_handler.cpp:19-42 | with a failing final handler the exception gets past the error handler exactly when a middleware in front of it calls `next` again |
| `Middlewares.EscapeWitnesses` | mycppwebfw/src/middleware/error_handler.cpp:18-25 | the smallest chains in which an exception escapes |
| `TokenBuckets.TokenBucket.Consume` | mycppwebfw/src/utils/token_bucket.cpp:17-36 | refills, then grants or refuses |
| `TokenBuckets.RunBounds` | mycppwebfw/src/utils/token_bucket.cpp:17-36 | tokens stay within 0..capacity over every run |
| `TokenBuckets.ExactLevel` | mycppwebfw/src/utils/token_bucket.cpp:17-36 | at any time after any run the tokens are the least of the capacity, what the start and all inflow leave, and what each earlier call leaves of a full bucket and the inflow since |
| `TokenBuckets.DecidedByLimits` | mycppwebfw/src/utils/token_bucket.cpp:17-36 | every decision of every run by amounts and times only: granted exactly when within all these limits |
| `TokenBuckets.GrantedAfterWaiting` | mycppwebfw/src/utils/token_bucket.cpp:17-36 | a call within the capacity is granted once its amount has flowed in since the last call |
| `TokenBuckets.WindowBound` | mycppwebfw/src/utils/token_bucket.cpp:17-36 | any window [s, t] grants at most capacity + rate * (t - s) |
| `TokenBuckets.RefusalInRun` | mycppwebfw/src/utils/token_bucket.cpp:17-36 | a refused call changes no later decision |

## Findings

Where the code does not do what its comments or names promise, the model follows the code:

- The error handler's comment says that its priority of 100 makes it run first. The chain is sorted by rising priority,
  so it runs after every middleware of lower priority, and their exceptions escape (`Middlewares.PriorityBoundary`).
- A middleware in front of the error handler that calls `next` twice runs the final handler outside the try block
  (`Middlewares.OneCallNeeded`).
- A request segment that spells the name of a dynamic segment is taken by the lookup by key: the binding is lost
  (`ReverseRouting.OwnNameIsLost`, exactly when: `Bindings.BindingsAsDeclared`) and a regex is not asked
  (`LinearScan.NameBypassesRegex`).
- A request that leaves a last optional parameter out loses the parameters before it: only the default comes back
  (`LastSegments.OptionalLosesOthers`, exactly when: `MatchedParams.MissingOptionalKeeps`).
- Without an explicit priority a regex segment ranks below a wildcard, because its node keeps priority 0
  (`StoredRoutes.HigherKindAnswers`).
- Children are keyed by the stripped part, so "/a" and "/:a" share a node whose kind the first one decides
  (`LinearScan.ClashHidesRoute`).
- In a query piece only the last two parts between `=` signs count (`Requests.OnePairRoundTrip`).
- The destructor of the thread pool can wait for ever (`ThreadPools.StopCanBeMissed`, `ThreadPools.MissedFromStart`).
- The idle timer never closes a connection (`Connections.TimerSettles`), because a read starts at once.
- Version numbers of ten or more digits may overflow (`HttpMessages.TenDigitsOverflow`).
- When only other methods match, the log says 405, but the handler returned sets the status `bad_request`, 400
  (`Routers.Router.NothingIffNoMethod`).

## Left out

- TrieNodes.RouteTree.AddRoute: a pattern segment ":" alone is excluded, because `part.back()` on an empty string is undefined.
- Trie nodes: the fields of a node are gathered in one record beside its children.
- Matcher.Match: the parameter maps that `find_matches` passes down are left out, because nothing reads them; `std::regex` is the
  parameter `rx`.
- LinearScan.MatchIsScan: optional parameters and wildcards in the middle of a pattern are matched as the code matches them; the
  binding theorem needs wildcards last.
- ReverseRouting.RoundTrip: for plain `:name` and literal segments only; other kinds have no placeholder that
  `url_for` fills in as it is written. Values hold no slash, which would add segments, and no colon, which might spell a
  placeholder that is still to be filled.
- Connections: bytes, sockets, time and the response are left out; the parser's verdict and the keep-alive decision come
  with the event. The parser is not reset after a request, so runs of several requests on one connection say nothing
  about the later ones.
- Server: the thread pool it owns, signals and `reload_config` are left out.
- BufferPools.BufferPool.Acquire: `size_t` products do not wrap around, and the mutex of the pool is left out, as handlers run one at a time.
- Thread pool: tasks are numbers; per-thread stop flags, which nothing sets, the moves, `resize` and tasks that throw are
  left out. Nothing enqueues from outside once the destructor runs.
- Route groups: `add_static_route` is declared without a definition.
- Middlewares: requests and responses, and what the error handler renders, are left out; only calls, throws and their
  order are kept.
- Token bucket: floating-point rounding and the mutex are left out.
- HttpParser.Parser.Consume: characters above 127 are not control characters here; C leaves them to the locale.
- HttpMessages.Response.ToBuffers: the status is its code; `stock_response` is left out.
- Not modelled, because it is input, output or formatting: the file server, compression, configuration, logging, the error
  renderer, the JWT, API-key, session-store, CORS and rate-limiter middlewares, and the development tools.
