# miniweb router, modelled in Dafny

This project models the router of the miniweb Go web framework (`router.go`).

- `Router.Filter` compiles a URL pattern into a list of keys. It grows a tree of `routing` nodes along those keys (`routing.addFilter`).
- `Router.ServeHTTP` takes the Request-URI apart into lower-case path segments and a query-string map. It matches the path against the tree (`routing.match`), which yields candidate routes with their captures. For each route it numbers the unnamed captures into a fields map and runs the route's filters (`filter_apply`). It stops at the first route whose filters report that the request is over; otherwise it answers NotFound.

Layout:

- `text.dfy`: `strings.Split`, `strings.FieldsFunc`, ASCII `strings.ToLower` and `strings.Join`, with their round trips.
- `segments.dfy`: the pattern compiler (`CompilePattern`, specified by `Compiled`) and the key parsing that `match` does with regexes (`ConstraintPattern`, `ConstraintName`, `TrimParens`).
- `tree.dfy`: the routing tree as a value and `AddFilter`.
- `matcher.dfy`: `match` as mutually recursive functions. `Siblings` and `Visit` mirror the sibling loop, which carries the routes, the shared `ok` result and the `segment` variable.
- `match_props.dfy`: soundness of every route `match` returns.
- `match_cases.dfy`: each kind of child on its own, registration followed by matching, and concrete trees for the surprising behaviours.
- `match_compose.dfy`: a node with several children, reduced to its children taken one at a time.
- `request.dfy`: path and query parsing, each as a loop proved equal to its specification function.
- `dispatch.dfy`: field numbering, `filter_apply` and the route loop.
- `router.dfy`: the `Router` class. Its `Filter` method replaces the root. `ServeHTTP` reads the root and is proved equal to the function `Serve`.

`router.go` behaves as follows where a reader may expect otherwise, and the model does the same:

- Named and optional captures are appended after the captures of the child routes. Only regex and wildcard captures are put in front.
- A Get filter that answers "over" does not end its route's filter list. Later Get filters still run, and the route stops only when the last filter invoked answers "over". An Any filter always ends its route's list. When it answers "not over", the next route is still tried.
- A constraint that is empty, like `:id()`, does not fall back to "no constraint". It leaves the sibling loop (`break`), and so does a `:name(re)` constraint that fails. Later siblings are then never tried.
- A wildcard with children never offers the empty remainder to its children. Its failed search also resets the `ok` result of all earlier siblings. Its own filters never answer a request: its search only ever passes a non-empty path to it.

## Model

| member | source | states |
|---|---|---|
| Segments.CompilePattern | router.go:337-355 | the keys built by the loop are `Compiled(pattern)`: the lower-cased pattern's non-empty '/'-parts, each tagged |
| Segments.CompiledShape | router.go:338-354 | every key comes from a non-empty, lower-case, '/'-free part; a part starting with ':', '?', '*' or '(' is kept as it is, any other part gets one leading '/'; removing the tag gives the part back |
| Segments.Tag | router.go:345-352 | `Untag` inverts the tag, and the key starts with '/' exactly when the part is not special |
| Segments.ConstraintRoundTrip | router.go:86-105 | for a key `:name(re)` or `?:name(re)` with no '(' in name or re, the pattern regex extracts `re` and the name regex extracts `name` |
| Segments.TrimParensRoundTrip | router.go:164-167 | trimming the parentheses of `(re)` gives back `re` when it neither starts nor ends with a parenthesis |
| Tree.AddFilterAppendOnly | router.go:184-213 | registration only appends: every node keeps its key, its filters as a prefix and its children; only the last existing child can change; the children grow by at most one, and by none exactly when the last child is reused |
| Tree.AddFilterTerminal | router.go:184-212 | after registration the pattern's path exists and ends at the node whose filters gained the filter at the end |
| Tree.AddFilterStar | router.go:193-197 | for a pattern ending in "*", the node the "*" hangs from also gains the filter at the end |
| Tree.AddFilterCount | router.go:184-213 | the tree's multiset of filters grows by the filter once, or twice for a final "*"; nothing else changes |
| Matcher.WildSearch | router.go:60-73 | a search that succeeds names a remainder `full[k..]`, with k less than the length, that the children match with exactly the routes it returns |
| MatchProps.MatchSound | router.go:24-182 | in every route match returns, the capture keys and values pair up, there are at most as many as path segments, and every value is a path segment; `ok` implies at least one route |
| MatchCases.EmptyPath | router.go:25-40 | on an empty path: `ok` exactly when the node or one of its "?:" children has filters; the own route comes first; after it come one route per "?:" child with filters, holding that child's filters, in child order, and no other; no route has captures; grandchildren are never looked at |
| MatchCases.OptionalRoutesOrder | router.go:32-38 | the routes the child loop of an empty path collects are one per "?:" child with filters, in child order, and every such child has one |
| MatchCases.LiteralChild | router.go:46-53 | a "/lit" child contributes its routes unchanged exactly when lit equals the segment and the child matches the rest |
| MatchCases.WildcardLeaf | router.go:74-82 | a "*" leaf takes the whole remaining path as unnamed captures and succeeds even without filters |
| MatchCases.WildSearchLeast | router.go:61-73 | a successful peeling search has tried and failed on every shorter prefix |
| MatchCases.WildSearchExhausted | router.go:61-73 | a failed peeling search means no non-empty remainder is matched by the children |
| MatchCases.WildcardChild | router.go:54-73 | a "*" with children succeeds exactly when some non-empty suffix of the path matches its children; it picks the shortest consumed prefix and puts that many unnamed captures in front of every child route |
| MatchCases.NamedCapture | router.go:106-117 | a ":name" child appends (name, segment) to every route of its children |
| MatchCases.ConstrainedCapture | router.go:86-117 | a ":name(re)" child behaves as ":name" when its pattern is non-empty and accepts the segment, and yields nothing otherwise |
| MatchCases.OptionalConstrainedCapture | router.go:118-162 | a "?:name(re)" child with a non-empty pattern gives, when the pattern accepts the segment, the consuming routes with (name, segment) appended, followed in every case by its children's routes on the unconsumed path; in any loop state it never stops the sibling loop |
| MatchCases.OptionalCapture | router.go:118-162 | a "?:name" child gives the consuming routes with (name, segment) appended, followed by its children's routes on the unconsumed path |
| MatchCases.RegexCapture | router.go:164-178 | a "(re)" child puts ("", segment) in front of every child route when the regex accepts the segment |
| MatchCases.BreakHidesLaterSiblings | router.go:94-99 | a failing `:id(x)` child stops the sibling loop, so a later literal sibling that matches on its own is never tried |
| MatchCases.EmptyConstraintBreaks | router.go:129-131 | an optional child with an empty constraint `?:id()` stops the sibling loop whatever the regex says |
| MatchCases.WildcardResetsOk | router.go:62 | a wildcard whose search fails turns the route found by an earlier literal sibling into a result with `ok` false |
| MatchCases.WildcardMovesSegment | router.go:70 | after a failed wildcard search, a later ":name" sibling captures the last path segment instead of the first |
| MatchCases.LiteralRoute | router.go:24-213 | a filter registered under literal parts on a fresh node matches exactly that path, with one route, no captures and only that filter |
| MatchCompose.VisitAppends | router.go:45-179 | in any loop state, a child that is not a wildcard with children only appends its routes, ORs its success into `ok` and keeps the segment, exactly as it would from the loop's initial state |
| MatchCompose.VisitBreaks | router.go:94-131 | a child stops the sibling loop exactly when it is a ":name(re)" child whose pattern is empty or rejects the segment, or a "?:name(re)" child whose pattern is empty |
| MatchCompose.MatchComposes | router.go:43-181 | when no child is a wildcard with children and none stops the loop, match returns the routes of each child matched on its own, concatenated in child order, and succeeds exactly when one of them does |
| Requests.PathText | router.go:246-252 | the path text is non-empty and holds no '?' or '#' |
| Requests.ParsePath | router.go:252-260 | the loop yields `RequestPath(uri)`, whose segments are non-empty, lower-case and '/'-free |
| Requests.ParseQuery | router.go:262-291 | the map's keys are exactly the keys of the query parts, and each holds the values of its key in order |
| Requests.QueryMapOf | router.go:263-290 | a map with exactly the parts' keys, each holding its values in order, is `QueryMap(uri)` |
| Requests.KeyValueRoundTrip | router.go:277-282 | "k=v" gives key k and value v when neither holds '=' |
| Requests.BareKey | router.go:277-282 | a part without '=' is a key with the empty value |
| Requests.SecondEqualsEndsValue | router.go:277-282 | in "k=v=w" the value is v: a second '=' cuts the value |
| Requests.QueryOfUri | router.go:264-272 | the query parts are the '&'/';'-fields of the text between the first '?' and the next '?' or '#' |
| Requests.PathOfUri | router.go:246-260 | "/" + the '/'-joined clean segments (just "/" for none), followed by nothing, a query or a fragment, parses back into exactly those segments; "/" gives the empty path |
| Segments.PartsOfJoin | router.go:338-354 | a pattern made of non-empty, lower-case, '/'-free parts, each after a '/', has exactly those parts, whatever characters they hold (optional and regex parts included); the pattern "/" has none |
| Segments.OptionalPartCompiles | router.go:338-354 | the pattern "/a/?:fmt" compiles to the keys "/a" and "?:fmt": the optional part is kept verbatim |
| Requests.QueryTakenAsPath | router.go:247-252 | the URI "?a" has the path ["a"]: the query is read as the path |
| Dispatch.Decimal | router.go:309 | the decimal form of n is non-empty and has one digit exactly when n < 10 |
| Dispatch.DecimalInjective | router.go:309 | different counts give different decimal forms |
| Dispatch.SyntheticNamesDistinct | router.go:305-310 | the i-th empty key is named "_i" (counting from 1), so two unnamed captures never share a name |
| Dispatch.FieldMapLastWins | router.go:306-312 | the fields map has exactly the route's names, and a name holds the value at its last position |
| Dispatch.NumberFields | router.go:304-312 | the loop builds `FieldMap(Names(keys), values)`, whose keys are exactly the names |
| Dispatch.PlanShape | router.go:224-241 | each invocation goes through Any, or through Get on a GET request, to a filter of the list that implements it, with the route's input; only the last one can be through Any |
| Dispatch.PlanStopsAtAny | router.go:226-230 | the first filter that implements Any is the last one invoked |
| Dispatch.PlanGetAll | router.go:232-238 | without an Any filter, a GET invokes every Get filter, whatever the earlier ones answered |
| Dispatch.PlanOnlyGet | router.go:232-238 | without an Any filter, a request other than GET invokes no filter |
| Dispatch.FilterApply | router.go:224-241 | the loop makes the invocations `Plan(filters, input)`; ok says some filter ran; over is the answer of the last one that ran |
| Dispatch.ServeRoute | router.go:304-319 | one route's turn makes that route's invocations and stops exactly when the route's last invoked filter answered over |
| Dispatch.RunRoutesHandled | router.go:302-323 | the request is handled, and not answered NotFound, exactly when some route stops it |
| Dispatch.RunRoutesFirstStop | router.go:302-318 | when route i is the first to stop, exactly the filters of routes 0..i have run |
| Dispatch.RunRoutesNoStop | router.go:302-323 | when no route stops, the filters of every route have run and NotFound follows |
| Dispatch.ServeRoutes | router.go:302-323 | the route loop returns `RunRoutes(...)` |
| Dispatch.OneGetRoute | router.go:224-241 | a single route with one Get filter on a GET invokes that filter once, and its answer decides the outcome |
| Routers.Router.constructor | router.go:220-222 | a new router has the empty root |
| Routers.Router.Filter | router.go:337-356 | the root becomes `AddFilter(old root, Compiled(pattern), f)`; it extends the old tree; the filter is appended at the pattern's end; the filter count grows by one, or two for a final "*" |
| Routers.Router.ServeHTTP | router.go:243-324 | serving a request gives `Serve(root, request)`: the invocations made and whether NotFound was avoided |
| Routers.MatchPaired | router.go:304-311 | every route match returns has no more keys than values, so numbering its fields is defined |
| Routers.RegisterThenServe | router.go:243-356 | on a new router, after registering a Get filter under a literal pattern or under "/", a GET of that path (with any query or fragment) invokes exactly that filter, with no fields and the parsed query; its answer decides whether NotFound follows |
| Routers.RootThenServe | router.go:184-260 | registering under "/" appends the filter to the root itself; a GET of "/" (with any query or fragment) has the empty path and invokes exactly that filter through the root's own route |
| Routers.TwoRegistrations | router.go:199-212 | registering "/a" and then the parts "*" and "b" builds a root with a "/a" child followed by a "*" child |
| Routers.WildcardShadowsLiteral | router.go:54-73 | with "/a" registered and then the parts "*" and "b", a GET of "/a" answers NotFound without running the "/a" filter |
| Text.FieldsNonEmpty | router.go:247-252 | FieldsFunc yields a field exactly when some character is not a separator, which is when `parts[0]` exists |
| Text.SplitJoin | router.go:255 | splitting a join of separator-free pieces gives the pieces back |
| Text.JoinSplit | router.go:255 | joining the pieces of a split with the separator gives the string back |

## Left out

- HTTP plumbing: the ResponseWriter, `Output` and the NotFound and MethodNotAllowed bodies (router.go:327-334) are not modelled. NotFound is the outcome `handled == false`.
- The request is reduced to its method and Request-URI. `input.go`, `output.go` and the filter interfaces of `filter.go` are not part of this model. A filter is an identifier with the set of verbs it implements, and its answers come from a `Handler` oracle. The oracle is assumed to give the same answer to the same filter, verb and input.
- Regex matching (`regexp.MatchString`) is an oracle parameter `re`. An invalid pattern is treated like a failing one.
- The two regexes that take a constraint key apart (router.go:87, 101, 123, 134) are modelled by slicing at the first '(' and at the first ':' and last '('. The model does not capture that `.` does not match a newline inside a key.
- `strings.ToLower` is modelled on ASCII letters only. Unicode case mapping is not modelled.
- `fmt.Sprintf("_%d", n)` is modelled by `Synthetic`, which builds "_" followed by the decimal digits.
- The registration helpers `Any`, `Get`, `Post` and so on (router.go:358-436) only forward to `Filter` and are not modelled.
- Slice aliasing is not modelled. The wildcard prefixes shared between routes (router.go:64-65) and the appends to route slices are treated as fresh values.
- `AddFilter` is modelled by rebuilding the walked path of a tree value rather than mutating nodes through pointers. Each node has one parent, so the tree is the same.
- A Request-URI made only of '?' and '#' makes the code panic at `parts[0]` (router.go:252). This is a precondition of `ParsePath`, `Serve` and `ServeHTTP`.
- In the query loop, the `len(part) == 0` skip (router.go:274-276) is dead code, because FieldsFunc never yields an empty part. The model has no branch for it.
- The commented-out fragment parsing (router.go:293-299) is not modelled.
