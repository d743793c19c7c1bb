# minibar, modelled in Dafny

minibar is a small CGI/FastCGI gateway. It serves a REST interface over
databases, and a JSON configuration file drives it. The configuration names
the databases (section `DB`: an `htpasswd` file or an sqlite database). It
also maps REST paths to SQL queries (section `REST`). A path may contain
literal segments, `*` wildcards and `:name` captures. Each query node lists
parameters: a dotted path into a context object built from the request,
bound positionally or by name. A node may instead carry a special action,
of which only `api` exists: it dumps the configuration with the queries
hidden.

This project models the core of that gateway and proves properties of it:

| file | module | what it models |
|---|---|---|
| `errors.dfy` | `Errors` | `Result`, `Status` and `Option`: a thrown exception becomes an `Err`/`Fail` carrying its message |
| `json.dfy` | `Json` | the jsoncpp values the code uses, and the accessors it relies on (`isObject`, `operator[]`, `get`, `isMember`, `asString`, `getMemberNames`, `append`) |
| `keyorder.dfy` | `KeyOrder` | the byte-wise key order of `std::map`, in which object members are visited |
| `utils.dfy` | `Utils` | `tokenize`, `QueryException::what`, `QueryObject` (both overloads), the hex table and `ParseHex` |
| `router.dfy` | `Router` | the route trie: a pure `Trie` value with `Insert`/`Match`, and the `RouteNode` class whose methods are proved against them |
| `cgi.dfy` | `Cgi` | `parseQueryString`: the character machine as written, and a split-and-decode reference proved equal to it |
| `database.dfy` | `Database` | the backend registry and `Database::FactoryCreate` |
| `configure.dfy` | `Configure` | `QueryParameter`, `RestNode`, their JSON dumps, and the `Config` class (`loadConfig`, `getDatabase`, `getRestNode`, `toJson`, `clear`) |
| `htpasswd.dfy` | `Htpasswd` | the htpasswd backend: its file format, the cached user map (`HtPasswdDb`), the connection state machine (`HtPasswdDbConnection`) and `Create` |
| `minibar.dfy` | `Minibar` | `getRequestJson`, the configuration cache and `processRequest`, as the sequence of writes, log entries and connection calls one request produces |

Design of the model:

- **JSON values.** A JSON value is the datatype `Json.Value`. Object members are a `map`; they are visited in sorted key order (`KeyOrder.SortedKeys`), as `std::map` iterates them.
- **Null counts as an object.** The jsoncpp generation the code targets reports `isObject()` as true for `null`. The code's own `isObject() && !isNull()` guards (src/configure.cpp lines 51 and 87) only make sense that way. So `Json.IsObject` holds for `Null` and `Object`, and `Json.Member` of `Null` is `Null`.
- **`operator[]` on a mutable value inserts a null member.** `Json.Touch` models this. `loadConfig` reads `root["DB"]` and `root["REST"]` that way. So the stored root, which `processRequest` exposes as `conf`, holds both keys, and they are null when they were absent.
- **Characters are bytes.** A Dafny `char` stands for one byte of a `std::string`, and the C++ `char` is taken to be signed. So a raw byte of the request is one `char`, and `%XX` decodes to the one `char` with that code (`byte as char`).
- **Strings are read through C strings.** jsoncpp turns member names into C strings, and `asString()` reads a string back through one. So both end at the first NUL (`Json.CString`): `Json.AsString` returns the text before it, and the query decoder stores its keys and values the same way.
- **Exceptions become error values.** An exception becomes an `Err` or `Fail` with the same message, and the catch in `processRequest` becomes a `LogException` event.
- **Outside effects become parameters.**
  - Reading the configuration file and parsing JSON text are a `load` and a `parse` function.
  - The database a query node uses is a `Connection` oracle. Given the backend, the calls made so far and the next call, it returns that call's outcome. A request's observable behaviour is the list of `Event`s it produces.
  - crypt(3) is a function parameter.
  - The htpasswd file is a `TextFile` object, with its text and modification time. The clock value at a flush is a parameter.
- **Imperative parts stay imperative.**
  - `tokenize`, `what`, `QueryObject` and `parseQueryString` are methods with loops, proved equal to their specification functions.
  - `RouteNode`, `Config`, `HtPasswdDb`, `HtPasswdDbConnection` and `ConfigCache` are classes. Their methods are specified by the pure functions of the same module.
- **The trim flag.** `tokenize`'s `trimEmpty` default is declared in a header that is not part of this model. It is a parameter throughout, fixed per `Config` and per `ConfigCache`.

Quirks of the code that the model reproduces:

- **REST guard.** `loadConfig` checks the `REST` section with `!dbNode.isObject()`, a repeat of the `DB` test, so a non-object `REST` section is never rejected by that guard. It reaches `getMemberNames`, which asserts; the model reports an error value there (`Configure.NonObjectRestNotGuarded`, see "Left out").
- **Missing sections.** Because null counts as an object, a configuration without `DB` or `REST` is accepted and has no databases or no routes.
- **What `api` hides.** The `api` dump hides only each node's query and database object. It keeps database names, parameters and special actions. The `conf` member of the parameter context is the stored document, not that dump.
- **Query strings.** In `parseQueryString`:
  - a second `=` turns the text read so far into the key (`a=b=c` gives `{"b":"c"}`);
  - a pair without `=` keys the empty string (`x&y=1` gives `{"":"x","y":"1"}`);
  - the last segment without `=` becomes a key with a null value.
- **htpasswd binds.**
  - A positional bind writes index `bindIndex+1`: the first positional parameter sets the password, and the second one fails.
  - A named bind inverts the `compare` test: any name other than `username` sets the username, and `username` sets the password.
  - `Create` validates `algorithm` but always hashes with crypt.

## Model

| member | source | states |
|---|---|---|
| Json.BeforeNul | src/cgi.cpp:46-56 | the text a C-string scan sees is the prefix up to, and without, the first NUL; the scanner reads the query that way |
| Json.CString | src/htpasswd.cpp:108-111 | the text asString returns holds no NUL, and a text without one is returned whole |
| Json.AsString | src/configure.cpp:52-70 | a string is read up to its first NUL, null reads as "", and exactly numbers, arrays and objects are not convertible |
| Utils.FindFirstOf | src/utils.cpp:40-42 | the position found is npos or lies at or after the start and holds a delimiter |
| Utils.FindFirstOfIsFirst | src/utils.cpp:40-42 | no delimiter lies between the start and the position found (or the end, for npos): it is the first one |
| Utils.Tokenize | src/utils.cpp:34-57 | the loop returns exactly the pieces between delimiters, in order, dropping empty pieces only when trimEmpty is set |
| Utils.TokenCount | src/utils.cpp:34-57 | without trimming there is one token more than there are delimiters in the input |
| Utils.TokensAreClean | src/utils.cpp:34-57 | no token contains a delimiter, and with trimEmpty no token is empty |
| Utils.TokensJoin | src/utils.cpp:34-57 | joining the untrimmed tokens with the one delimiter the input uses rebuilds the input |
| Utils.TokensOfEmpty | src/utils.cpp:39-47 | the empty string gives one empty token, or none with trimEmpty |
| Utils.TokenizeExample | src/utils.cpp:149-154 | "foo/bar/baz" split on "/" gives foo, bar, baz |
| Utils.What | src/utils.cpp:65-83 | the message is the exception text followed by every term prefixed by a dot, the failing term wrapped in >> and << |
| Utils.WhatMarksFailingTerm | src/utils.cpp:65-83 | exactly the term at errterm is marked; an errterm outside the query marks nothing |
| Utils.QueryObject | src/utils.cpp:87-104 | the loop gives the outcome of resolving the query term by term from the root |
| Utils.QueryExpression | src/utils.cpp:107-109 | the string overload resolves the query split on dots |
| Utils.QueryObjectMeaning | src/utils.cpp:87-104 | the query succeeds iff the member-by-member walk from the root succeeds, with the walk's value; on failure errterm is the first term where the node was not an object or the member was missing or null, with the matching message |
| Utils.QueryObjectExamples | src/utils.cpp:87-104 | a found nested member, a non-object step, a missing member, a null member, and the empty query returning the root |
| Utils.HexLookupMeaning | src/utils.cpp:111-120 | the table maps 0-9, a-f and A-F to their digit values and every other 7-bit character to -1 |
| Utils.ParseHex | src/utils.cpp:122-128 | succeeds iff the character is a hex digit, giving accumulator*16 plus its value; otherwise fails with the invalid-hex message |
| Router.FindChild | src/router.cpp:59-68 | the index of the first child with the token as name, or the number of children when none has it |
| Router.Chain | src/router.cpp:70-79 | the node built for the remaining tokens carries the first token and the route id |
| Router.Insert | src/router.cpp:51-80 | addRoute on the trie: existing children are followed by name, a path ending on an existing node fails with "route already exists", and at the first missing token a chain carrying the route id is appended last; its meaning is stated by InsertFailsIffPresent, InsertPath and InsertKeepsShape |
| Router.InsertKeepsRoot | src/router.cpp:51-80 | inserting leaves the root's name and id alone |
| Router.InsertFailsIffPresent | src/router.cpp:59-68 | insertion fails, with "route already exists", exactly when the full token path is already in the trie |
| Router.InsertPath | src/router.cpp:51-80 | after insertion the trie's paths are the old ones plus every prefix of the route; old paths keep their ids, new nodes carry the route id |
| Router.RouteExistsAfterInsert | src/router.cpp:51-80 | inserting the same route twice fails the second time, and after the first insertion every prefix of the route is present with the route's id |
| Router.InsertKeepsShape | src/router.cpp:51-80 | insertion keeps sibling names distinct and keeps every id below a bound the route id respects |
| Router.Match | src/router.cpp:82-117 | matchRoute: with no tokens left the node's own id, otherwise the loop over the children; its meaning is stated by MatchIsFirstCandidate and MatchMeaning |
| Router.MatchFrom | src/router.cpp:94-116 | the loop over the children from one index on: a child whose name neither equals the token nor is "*" or ":name" is skipped, the first child below which a route matches wins and a ":name" child records its capture, and running out of children is NO_ROUTE_MATCH |
| Router.MatchIsFirstCandidate | src/router.cpp:82-117 | the match is the first hit in the depth-first list of candidate matches, children tried in insertion order |
| Router.MatchMeaning | src/router.cpp:82-117 | a match exists iff some candidate matches; then the result is the earliest matching candidate, otherwise NO_ROUTE_MATCH with no captures |
| Router.NoCapturesOnFailure | src/router.cpp:104-116 | a failed match records no path value |
| Router.MatchExhausted | src/router.cpp:84-86 | with no tokens left the node's own id is returned; an empty trie matches nothing |
| Router.MatchIdBelow | src/router.cpp:82-117 | the id returned is NO_ROUTE_MATCH or one of the ids stored in the trie |
| Router.ApplyCaptures | src/router.cpp:107-110 | the path values are an object after the captures are written |
| Router.ApplyCapturesSnoc | src/router.cpp:107-110 | each capture sets the name after ':' to the token it matched |
| Router.ApplyCapturesOthers | src/router.cpp:107-110 | names that were not captured keep their old values |
| Router.ApplyCapturesLastWins | src/router.cpp:107-110 | for a name captured more than once, the last write wins |
| Router.ExampleFirstRoute | src/test/router.cpp:53-56 | inserting foo/bar/baz with id 42 into an empty router builds one chain |
| Router.ExampleSecondRoute | src/test/router.cpp:57 | foo/*/gorf with id 13 shares the foo node |
| Router.ExampleThirdRoute | src/test/router.cpp:58 | foo/bar/baz/:gorf with id 29 extends the first chain |
| Router.ExampleDuplicate | src/test/router.cpp:60-61 | inserting foo/bar/baz again fails |
| Router.ExampleMatches | src/test/router.cpp:63-75 | x/y/z does not match, foo/bar/baz gives 42 with no captures, foo/bar/baz/goat gives 29 capturing gorf=goat |
| Router.RouterExample | src/test/router.cpp:50-76 | the whole unit test on the pure trie |
| Router.RouteNode.constructor | src/router.cpp:40-42 | a new node has no children and id NO_ROUTE_MATCH |
| Router.RouteNode.Clear | src/router.cpp:44-49 | the children are dropped; name and id stay |
| Router.RouteNode.AddRoute | src/router.cpp:51-80 | the node's tree becomes the trie insertion's result, or stays unchanged with the route-exists failure |
| Router.RouteNode.Descend | src/router.cpp:59-68 | recursing into an existing child with the remaining tokens inserts into that child |
| Router.RouteNode.Extend | src/router.cpp:70-79 | a new chain for the remaining tokens is appended as the last child |
| Router.RouteNode.NewNode | src/router.cpp:71-79 | a fresh node holds the chain for the tokens with the route id |
| Router.RouteNode.MatchRoute | src/router.cpp:82-117 | returns the trie match's id and writes its captures into the path values |
| Router.BuildTestRouter | src/test/router.cpp:50-61 | the three insertions build the expected trie and the duplicate is refused |
| Router.RouterUnitTest | src/test/router.cpp:50-76 | the unit test on the class: duplicate refused, ids -1, 42 and 29, path values {"gorf":"goat"} |
| Cgi.Step | src/cgi.cpp:57-81 | one step consumes between one and all of the remaining characters, and fails only on a bad escape |
| Cgi.ParseQueryString | src/cgi.cpp:43-91 | the loop computes the character machine's outcome |
| Cgi.Run | src/cgi.cpp:56-82 | the character loop on the text still to be read: it stops at the first NUL and fails only with the invalid-hex message; ParseQueryIsReference states what it computes |
| Cgi.ParseQuery | src/cgi.cpp:43-91 | parseQueryString: an empty query is an empty object, otherwise the loop runs and its last pair is stored; ParseQueryIsReference, ParseQueryShape and ParseQueryFails state its meaning |
| Cgi.ParseQueryIsReference | src/cgi.cpp:43-91 | the machine equals the reference: cut at NUL, split on '&', split each segment on '=', decode '+' and %XX; the key is the next-to-last piece, the value the last, and a last segment without '=' becomes a null-valued key; a decoded NUL ends the stored key or value, as jsoncpp's C-string keys and string reads do |
| Cgi.ParseQueryShape | src/cgi.cpp:43-91 | a successful parse is an object whose values are strings or null |
| Cgi.ParseQueryFails | src/cgi.cpp:69-74 | parsing fails, with the invalid-hex message, iff some '%' before the first NUL is not followed by two hex digits |
| Cgi.RunEquals | src/cgi.cpp:58-62 | '=' makes the text read so far the key and starts an empty value |
| Cgi.RunAmpersand | src/cgi.cpp:63-68 | '&' stores the pair and resets key and value |
| Cgi.RunPlainChar | src/cgi.cpp:75-79 | '+' appends a space and any other ordinary character appends itself |
| Cgi.ExampleFlag | src/cgi.cpp:83-89 | a lone word becomes a key with a null value |
| Cgi.ExampleTwoPairs | src/cgi.cpp:43-91 | a=1&b=2 gives two string members |
| Cgi.ExampleTrailingAmpersand | src/cgi.cpp:83-89 | a trailing '&' adds the empty key with a null value |
| Cgi.ExampleLoneWord | src/cgi.cpp:63-68 | a segment without '=' before '&' is stored under the empty key |
| Cgi.ExampleSecondEquals | src/cgi.cpp:58-62 | a second '=' re-keys the pair |
| Cgi.ExampleDecoding | src/cgi.cpp:69-77 | '+' decodes to a space and %41 to 'A' |
| Cgi.ExampleDecodedNul | src/cgi.cpp:69-74 | %00 gives the empty key, and a%00b=1 stores the value under the key a |
| Cgi.ExampleNonAscii | src/cgi.cpp:69-79 | a raw non-ASCII character is copied into the value, and after '%' it is refused as an escape |
| Cgi.ExampleBadEscapes | src/cgi.cpp:69-74 | a '%' at the end, with one digit, or with non-hex digits fails |
| Database.FactoryCreate | src/database.cpp:37-47 | the type is read with asString; a type with no registered factory fails with "Database type is not supported" |
| Database.MissingTypeUnsupported | src/database.cpp:38-43 | a section with no type (or a null one) is unsupported |
| Database.RegisteredFactoryGetsSection | src/database.cpp:45-46 | a registered type's factory receives the whole section |
| Database.FactoryCreateSucceeds | src/database.cpp:37-47 | creation succeeds iff the type is registered and that factory succeeds |
| KeyOrder.Sorted | src/configure.cpp:183 | member names come out each once, in ascending byte order |
| Configure.ScalarType | src/configure.cpp:37-44 | int, uint, real, string and bool map to their value types, one to one; any other name fails with "Expected a scalar type expression" |
| Configure.OptionalText | src/configure.cpp:53-67 | an absent member reads as empty text, a present one through asString |
| Configure.ParameterOf | src/configure.cpp:50-76 | the QueryParameter constructor: an object spells out path, name, type, default and validation; a string is a bare path; anything else is refused; ParameterShapes, ParameterFromObject and ParameterTypeParsed state it |
| Configure.ParameterShapes | src/configure.cpp:50-76 | a string parameter is a bare path with no type; anything but an object or a string is refused |
| Configure.ParameterFromObject | src/configure.cpp:51-68 | an object parameter takes path, name, default, validation and type from its members, absent ones left empty or null |
| Configure.ParameterTypeParsed | src/configure.cpp:56-58 | a present type that is not a scalar name makes the parameter fail |
| Configure.ParameterExamples | src/test/configure.cpp:45-59 | the shape cases of the parameter unit test: an array refused, a bare string, an empty object |
| Configure.ParameterFieldExamples | src/test/configure.cpp:61-87 | the cases that add name, path, validation, default and type one by one |
| Configure.TypeOnlyParameter | src/configure.cpp:50-76 | a parameter with only a type takes its kind from the type name, or is refused with ScalarType's error, every other field keeping its default |
| Configure.ParameterTypeExamples | src/test/configure.cpp:89-102 | the five scalar type names are accepted |
| Configure.ParameterRefusedTypeExamples | src/test/configure.cpp:104-106 | the empty, unknown and null types are refused |
| Configure.ParametersFrom | src/configure.cpp:101-104 | parameters are compiled in order, one per element, and compilation fails iff some element fails |
| Configure.DatabaseNamed | src/configure.cpp:205-213 | a name finds its database, or fails with "Database <name> does not exist." |
| Configure.RestNodeOf | src/configure.cpp:84-106 | the compiled node carries the path it was compiled for |
| Configure.QueryNode | src/configure.cpp:94-105 | a query node carries its path and no special action |
| Configure.RestNodeMeaning | src/configure.cpp:84-106 | non-objects are refused; a string special member makes a special node; anything else is a query node |
| Configure.QueryNodeMeaning | src/configure.cpp:94-105 | a query node uses the named database (default "default"), which must exist, and takes its query and parameters from the node |
| Configure.RestNodeExamples | src/test/configure.cpp:109-120 | arrays, strings and null are refused as REST nodes |
| Configure.RestNodeNeedsDefault | src/test/configure.cpp:117 | an empty node fails because no database named default exists |
| Configure.CompileRestNode | src/configure.cpp:84-106 | the constructor computes the compiled node |
| Configure.NodeJsonMeaning | src/configure.cpp:108-128 | the dump ignores the query and the database object; a special node shows only its action, a query node its database name and its parameters (null when there are none) |
| Configure.NodeToJson | src/configure.cpp:108-128 | the loop builds the node's dump |
| Configure.RouteDumpKeys | src/configure.cpp:232-234 | the REST dump has exactly one key per route path |
| Configure.ConfigJsonMeaning | src/configure.cpp:224-237 | the dump is null when there is nothing, maps each database name to itself under DB, and each route path to its node's dump under REST |
| Configure.ConfigJsonHidesQueries | src/configure.cpp:224-237 | two route tables that differ only in queries and database objects dump identically |
| Configure.RouteStep | src/configure.cpp:196-202 | one REST member inserts its path with id routes.size() and appends a node carrying that path |
| Configure.Compile | src/configure.cpp:159-203 | loadConfig on a compiled state: the parse outcome, the root and DB checks, the databases in key order, then the REST half; CompileRejects, CompileRejectsDbChild, NonObjectRestNotGuarded and CompileRoutesIds state it |
| Configure.CompileDatabases | src/configure.cpp:183-189 | the DB loop in key order: a child that is not an object is refused, otherwise the factory builds its backend and the first failure stops the loop |
| Configure.CompileRest | src/configure.cpp:191-202 | the REST half: REST is touched into the document, its members are listed and the routes compiled, and the compiled state keeps the touched document |
| Configure.CompileRoutes | src/configure.cpp:196-202 | the REST loop in key order, one RouteStep per member, stopping at the first failure; CompileRoutesIds states the ids it hands out |
| Configure.CompileRejects | src/configure.cpp:167-182 | a parse error, a non-object root and a non-object DB section are refused with their messages |
| Configure.CompileRejectsDbChild | src/configure.cpp:183-187 | a DB child that is not an object is refused |
| Configure.NonObjectRestNotGuarded | src/configure.cpp:192-197 | a REST section that is neither an object nor null passes the guard and reaches getMemberNames, where compilation stops |
| Configure.CompileRoutesIds | src/configure.cpp:196-202 | after compiling, route i has id old size + i, the node at that index carries the path, and old paths keep their ids |
| Configure.RouteFor | src/configure.cpp:216-222 | an unmatched path fails with "Unknown route <path>"; otherwise the node at the matched index is returned with the captured path values |
| Configure.Config.constructor | src/configure.cpp:132-134 | a new configuration is empty |
| Configure.Config.Clear | src/configure.cpp:140-153 | router children, root, databases and routes are reset |
| Configure.Config.GetDatabase | src/configure.cpp:205-213 | looks the name up as DatabaseNamed does |
| Configure.Config.GetRestNode | src/configure.cpp:216-222 | matches the path in the router and returns what RouteFor gives |
| Configure.Config.ToJson | src/configure.cpp:224-237 | the loops build the sanitised dump |
| Configure.Config.DatabasesToJson | src/configure.cpp:227-230 | the first loop maps every database name to itself under DB |
| Configure.Config.LoadDatabases | src/configure.cpp:183-189 | the DB loop adds the factory's backends in key order, or stops at the first failure |
| Configure.Config.InsertRoute | src/configure.cpp:198-200 | the path goes into the router with id routes.size(), keeping ids below the new size |
| Configure.Config.LoadRoute | src/configure.cpp:196-202 | one REST member is inserted and compiled, as RouteStep says |
| Configure.Config.LoadRoutes | src/configure.cpp:196-202 | the REST loop compiles every member in key order |
| Configure.Config.LoadConfig | src/configure.cpp:159-203 | the configuration ends in the state Compile describes, or reports its error |
| Configure.Config.LoadDocument | src/configure.cpp:175-189 | the debug flag and the databases of an accepted root |
| Configure.Config.LoadRest | src/configure.cpp:191-202 | the REST half of loadConfig |
| Htpasswd.ParseLine | src/htpasswd.cpp:199-200 | one line split at its first colon; a line without a colon is both user and hash; ParseLineMeaning states it |
| Htpasswd.Parse | src/htpasswd.cpp:193-201 | the users a reload builds, line by line from an empty map, so a later line for the same user wins (ParseLinesSnoc) |
| Htpasswd.ParseLineMeaning | src/htpasswd.cpp:198-200 | a line splits at its first ':' into user and hash; a line without ':' uses itself as both |
| Htpasswd.ParseLinesSnoc | src/htpasswd.cpp:197-201 | a later line for the same user wins |
| Htpasswd.Serialize | src/htpasswd.cpp:210-212 | the text flushCache writes: "user:hash" and a newline per entry, in key order; ParseSerialize states the round trip |
| Htpasswd.ParseSerialize | src/htpasswd.cpp:184-214 | reading back a flushed map gives the same map, when no name contains ':' or a newline and no hash a newline |
| Htpasswd.ParseSingleEntry | src/htpasswd.cpp:198-211 | a single entry reads back as that user and hash |
| Htpasswd.Updated | src/htpasswd.cpp:237-247 | updating fails with "Invalid username: " for an unknown user; otherwise only that user's hash changes, to hashFn(password) |
| Htpasswd.Inserted | src/htpasswd.cpp:249-259 | inserting fails for a known user; otherwise that user is added with the hash and no one else changes |
| Htpasswd.Deleted | src/htpasswd.cpp:261-271 | deleting fails for an unknown user; otherwise exactly that user is removed |
| Htpasswd.HtPasswdDb.constructor | src/htpasswd.cpp:164-178 | the store starts at time 0 and loads the file if it is newer |
| Htpasswd.HtPasswdDb.SyncCache | src/htpasswd.cpp:184-205 | the file is re-read exactly when it is newer than the cache |
| Htpasswd.HtPasswdDb.FlushCache | src/htpasswd.cpp:207-214 | the file becomes the serialised map |
| Htpasswd.HtPasswdDb.UpdateUser | src/htpasswd.cpp:237-247 | the map becomes Updated's result and is flushed, or nothing changes on failure |
| Htpasswd.HtPasswdDb.InsertUser | src/htpasswd.cpp:249-259 | the map becomes Inserted's result and is flushed, or nothing changes on failure |
| Htpasswd.HtPasswdDb.DeleteUser | src/htpasswd.cpp:261-271 | the map becomes Deleted's result and is flushed, or nothing changes on failure |
| Htpasswd.HtPasswdDb.GetConnection | src/htpasswd.cpp:232-235 | the cache is synchronised and a fresh connection on this store is returned |
| Htpasswd.PreparedVerb | src/htpasswd.cpp:84-99 | update, insert and delete are the only queries, one verb each; others fail with "Invalid htpasswd query: " |
| Htpasswd.BoundSlot | src/htpasswd.cpp:101-118 | only strings bind; index 0 is the username, 1 the password, others fail with "Invalid Parameter Index: " |
| Htpasswd.NamedIndex | src/htpasswd.cpp:125-137 | any name but "username" selects the username slot, and "username" selects the password slot |
| Htpasswd.DeleteIgnoresPassword | src/htpasswd.cpp:139-156 | a delete depends only on the username |
| Htpasswd.HtPasswdDbConnection.constructor | src/htpasswd.cpp:75-78 | a new connection has bind index 0 and no query |
| Htpasswd.HtPasswdDbConnection.Prepare | src/htpasswd.cpp:84-99 | the query becomes the prepared verb, or fails leaving it unchanged |
| Htpasswd.HtPasswdDbConnection.BindIndex | src/htpasswd.cpp:101-118 | the selected slot takes the string as asString reads it (up to its first NUL), or the bind fails and nothing changes |
| Htpasswd.HtPasswdDbConnection.Bind | src/htpasswd.cpp:120-123 | binds index bindIndex+1 and counts the bind only when it succeeded |
| Htpasswd.HtPasswdDbConnection.BindNamed | src/htpasswd.cpp:125-137 | binds the slot NamedIndex selects |
| Htpasswd.HtPasswdDbConnection.Execute | src/htpasswd.cpp:139-156 | applies the prepared verb to the store and returns an empty array |
| Htpasswd.ExampleBinds | src/htpasswd.cpp:120-123 | the first positional bind sets the password and the second fails with index 2 |
| Htpasswd.AlgorithmNamed | src/htpasswd.cpp:277-291 | crypt, md5 and sh1 are the known algorithms; others fail with "Invalid algorithm: " |
| Htpasswd.CreateChecks | src/htpasswd.cpp:273-294 | creation fails iff the file name is not text or the algorithm is not known |
| Htpasswd.CreateIgnoresAlgorithm | src/htpasswd.cpp:293 | two sections with the same file name and valid algorithms create the same store |
| Htpasswd.Create | src/htpasswd.cpp:273-294 | the store uses the named file and always the crypt hash |
| Htpasswd.ExampleInsert | src/test/htpasswd.cpp:68-74 | inserting into a store whose file was never written leaves the one crypt entry |
| Htpasswd.ExampleUpdate | src/test/htpasswd.cpp:76-81 | updating rewrites that entry with the new hash |
| Htpasswd.ExampleDelete | src/test/htpasswd.cpp:83-88 | deleting leaves the file empty |
| Htpasswd.ExampleInsertUpdateDelete | src/test/htpasswd.cpp:64-88 | the three tests in sequence end with an empty file |
| Minibar.RequestText | src/minibar.cpp:64-69 | an empty body is read as "[]", any other body as itself |
| Minibar.EmptyBodyIsEmptyArray | src/minibar.cpp:60-76 | an empty body is parsed as "[]", which a reader taking "[]" to the empty array turns into one; any other body is parsed as sent |
| Minibar.Context | src/minibar.cpp:145-150 | the parameter context, or the first error of reading the body and then parsing the query string |
| Minibar.ContextOf | src/minibar.cpp:146-150 | the context has exactly conf, path, request and query |
| Minibar.Lookup | src/minibar.cpp:158 | a parameter's value is what its dotted path selects, or the query exception's message |
| Minibar.BindAll | src/minibar.cpp:157-165 | one bind per parameter in order, positional when the name is empty and named otherwise, stopping at the first failure; BindAllCalls and BindAllFails state it |
| Minibar.BindAllCalls | src/minibar.cpp:157-165 | one bind per parameter, in declaration order, positional when unnamed, each with the value its path selects |
| Minibar.BindAllFails | src/minibar.cpp:157-165 | on a connection that accepts every call, binding fails iff some parameter's path selects nothing |
| Minibar.Exchange | src/minibar.cpp:152-167 | connect, prepare the node's query, the binds, then execute, with the first failure ending it; ExchangeCalls states it |
| Minibar.ExchangeCalls | src/minibar.cpp:153-167 | connect, prepare the node's query, the binds, then execute, whose outcome is the result |
| Minibar.Respond | src/minibar.cpp:120-192 | processRequest once the configuration is known: the events of the route lookup, the special actions and the query branch; the Respond* lemmas state each branch |
| Minibar.RespondUnknownRoute | src/minibar.cpp:120-124 | an unknown route writes nothing and logs "Unknown route <path>" |
| Minibar.RespondApi | src/minibar.cpp:131-135 | the api action answers 200 with the sanitised dump and ignores body, query string and databases |
| Minibar.RespondUnknownSpecial | src/minibar.cpp:136-143 | another special action writes the 400 status and its message, then the 200 status and a null body |
| Minibar.RespondQuery | src/minibar.cpp:144-178 | a query node logs any failure; on success it logs the result and answers 200 with it unless close fails |
| Minibar.RespondShape | src/minibar.cpp:113-192 | a response is a logged exception with nothing written, or ends with the 200 status and a JSON body |
| Minibar.RespondBadRequest | src/minibar.cpp:136-143 | the 400 status is written only for an unknown special action |
| Minibar.Serve | src/minibar.cpp:120-179 | handling a request with a loaded configuration produces Respond's events |
| Minibar.ServeQuery | src/minibar.cpp:146-178 | the query branch: the exchange, the log, close, and the 200 answer |
| Minibar.ConfigCache.constructor | src/minibar.cpp:83-85 | the cache starts empty |
| Minibar.ConfigCache.GetConfig | src/minibar.cpp:95-108 | a cached file returns its configuration unchanged; a new one is compiled and cached only when loading succeeds |
| Minibar.ConfigCache.Remember | src/minibar.cpp:102 | the file name now maps to the configuration |
| Minibar.ConfigCache.Load | src/minibar.cpp:100-101 | a fresh configuration reaches Compile's state or reports its error |
| Minibar.ConfigCache.ProcessRequest | src/minibar.cpp:113-192 | a request on a cached or newly loaded configuration produces Respond's events; a load failure is logged and caches nothing |

## Left out

- src/main.cpp, src/fastcgi.cpp, src/config.cpp, src/sql.cpp and the sqlite extension are not part of this model. They cover the process entry point, the CGI/FastCGI front ends, the frontend variables and the sqlite backend. A sqlite database is only its configuration section (`Backend.Sqlite`), and query nodes reach any backend through the `Connection` oracle.
- Reading files, `stat`, the clock and writing the response are parameters or events, not I/O.
- The pthread mutex of the htpasswd store is not modelled, and neither are concurrent requests.
- JSON text parsing and the styled writer are functions given to the model (`Env.parse`, `Env.load`), or left out. Floating-point numbers are reduced to whether they are zero.
- Memory management is not modelled: the deletes in `clear` and the destructors, and the configuration leaked when `loadConfig` throws.
- The `Connection` abstract class and its `close` are modelled as the oracle. The htpasswd connection is a separate class, because the model has no dynamic dispatch. So the end-to-end test in src/test/minibar.cpp, which runs a query against a real file, is not modelled.
- `hashMD5` and `hashSH1` are identity placeholders in the source and are never selected by `Create`. Only crypt is modelled, as a function parameter.
- Utils.ParseHex: requires a character below 128 and an accumulator below 2^27. The shift would overflow `int` beyond that bound, and every caller starts from 0 and shifts in two digits. The table lists only the 128 ASCII characters. With a signed `char`, a byte of 128 or more right after '%' indexes it with a negative value, which is undefined behaviour. The model refuses such an escape with the invalid-hex message (`Cgi.HexAt`). A byte of 128 or more anywhere else is copied like any other. With an unsigned `char` the table's -1 entries would read as 255, so `ParseHex` would never fail; the model does not cover that reading.
- Router.RouteNode.AddRoute: requires a non-empty token list, because the source dereferences the first token unconditionally. `Configure.Loadable` carries this requirement to `LoadConfig`, `GetConfig` and `ProcessRequest` as "every REST path has a token".
- Htpasswd.HtPasswdDbConnection.Execute: requires a prepared query. In the source an unprepared connection switches on an uninitialised field.
- Htpasswd.HtPasswdDb.FlushCache: the newline that `endl` writes after each entry is kept. The file's new modification time is the given clock value.
- Minibar.Serve: `logJson` and the styled `writeJson` are events carrying the value, not its text.
- Configure.NonObjectRestNotGuarded: the jsoncpp generation the code targets asserts in `getMemberNames` on a value that is neither an object nor null. That is an abort, or undefined behaviour when assertions are compiled out, not an exception. The model stops compilation with an error value whose message the library does not have. So `Minibar.ConfigCache.ProcessRequest` logs that error where the process would abort.
- Configure.RestNodeOf: a node whose `special` member is a string that reads as empty (it is "" or starts with a NUL) counts as special, so no database is looked up and `database` stays `None`. `processRequest` then takes the query branch because the action is empty. In the source that dereferences the node's uninitialised database pointer. The model instead passes `None` to the connection oracle.
- Minibar.ConfigCache.ProcessRequest: the `debugPrint` of each request is not modelled. It writes only to the debug log.
- Htpasswd.HtPasswdDb.SyncCache: the file's modification time is `TextFile.mtime`. When `stat` fails, the source reads an uninitialised `struct stat`. The model has no such case: a file that was never written is one with `mtime <= 0`.
