/**
 * Request handling: a request names a configuration file and a REST target;
 * the configuration (compiled once per file name and cached) routes the
 * target to a REST node, and the node either performs a special action or
 * runs its query on its database, binding each parameter to the value its
 * path selects from the request context.
 *
 * The frontend (file reading, the JSON reader, the output streams) and the
 * backends' connections are parameters: `Env.load` and `Env.parse` stand for
 * reading and parsing, and `Env.conn` is the outcome of each call made on a
 * connection, given the calls made on it before.  The output is the sequence
 * of events written to the response or the log.
 */
module Minibar {
  import opened Errors
  import opened Json
  import opened Utils
  import opened Router
  import opened Cgi
  import opened Database
  import opened Configure

  /** A call made on a database connection. */
  datatype Call =
    | Connect
    | Prepare(query: string)
    | BindPositional(value: Value)
    | BindNamed(name: string, value: Value)
    | Execute
    | Close

  /** The outcome of a call on the connection to a node's database, given the calls made before it. */
  type Connection = (Option<Backend>, seq<Call>, Call) -> Result<Value>

  /** What the frontend provides besides the request. */
  datatype Env = Env(
    load: string -> Result<Value>,
    parse: string -> Result<Value>,
    conn: Connection)

  /** The CGI variables of one request. */
  datatype Request = Request(target: string, body: string, queryString: string)

  /** What the handler writes: to the response, or to the log. */
  datatype Event =
    | Write(text: string)
    | WriteJson(value: Value)
    | LogJson(value: Value)
    | LogException(message: string)

  const API: string := "api"
  const UNKNOWN_SPECIAL: string := "Unknown special action: "

  /** The state of a configuration that was just constructed. */
  const FRESH: Compiled := Compiled(Null, false, map[], EMPTY, [])

  // ------------------------------------------------------- request context

  /** getRequestJson: an empty body is read as an empty array. */
  function RequestText(body: string): (text: string)
    ensures body != "" ==> text == body
    ensures body == "" ==> text == "[]"
  {
    if |body| == 0 then "[]" else body
  }

  function RequestJson(body: string, parse: string -> Result<Value>): Result<Value> {
    parse(RequestText(body))
  }

  /** A request without a body carries whatever the reader makes of "[]", and any other body is parsed as sent. */
  lemma EmptyBodyIsEmptyArray(parse: string -> Result<Value>, body: string)
    requires parse("[]") == Ok(Array([]))
    ensures RequestJson("", parse) == Ok(Array([]))
    ensures body != "" ==> RequestJson(body, parse) == parse(body)
  {
  }

  /** The parameter evaluation context: exactly conf, path, request and query. */
  function ContextOf(root: Value, pathValues: Value, request: Value, query: Value): (ctx: Value)
    ensures ctx.Object? && ctx.members.Keys == {"conf", "path", "request", "query"}
    ensures ctx.members["conf"] == root && ctx.members["path"] == pathValues
    ensures ctx.members["request"] == request && ctx.members["query"] == query
  {
    var ctx := SetMember(SetMember(SetMember(SetMember(Null, "conf", root), "path", pathValues), "request", request), "query", query);
    assert ctx.members == map["conf" := root, "path" := pathValues, "request" := request, "query" := query];
    ctx
  }

  /** The context, unless reading the body or the query string fails (in that order). */
  function Context(root: Value, pathValues: Value, body: string, queryString: string,
                   parse: string -> Result<Value>): Result<Value>
  {
    var request :- RequestJson(body, parse);
    var query :- ParseQuery(queryString);
    Ok(ContextOf(root, pathValues, request, query))
  }

  // ------------------------------------------------------------ parameters

  /** QueryObject(context, path): the value the path selects, or the exception's what(). */
  function Lookup(ctx: Value, path: string, trimEmpty: bool): (r: Result<Value>)
    ensures var found := Resolve(ctx, Tokens(path, ".", trimEmpty), 0);
      && (r.Ok? <==> found.Found?)
      && (r.Ok? ==> r.value == found.value)
      && (r.Err? ==> r.message == found.error.text + Marked(found.error.query, found.error.errterm))
  {
    match Resolve(ctx, Tokens(path, ".", trimEmpty), 0)
    case Found(v) => Ok(v)
    case Failed(e) => Err(e.text + Marked(e.query, e.errterm))
  }

  /** A named parameter binds by name, an unnamed one by position. */
  function BindCall(p: QueryParameter, v: Value): Call {
    if p.name == "" then BindPositional(v) else BindNamed(p.name, v)
  }

  /** The binds of the remaining parameters, in order, after the calls in history. */
  function BindAll(ps: seq<QueryParameter>, ctx: Value, trimEmpty: bool, db: Option<Backend>,
                   conn: Connection, history: seq<Call>): Result<seq<Call>>
    decreases |ps|
  {
    if ps == [] then Ok(history)
    else
      var value :- Lookup(ctx, ps[0].path, trimEmpty);
      var call := BindCall(ps[0], value);
      var bound :- conn(db, history, call);
      BindAll(ps[1..], ctx, trimEmpty, db, conn, history + [call])
  }

  /**
   * A successful run of the binds makes one call per parameter, in
   * declaration order, each binding the value its path selects.
   */
  lemma {:induction false} BindAllCalls(ps: seq<QueryParameter>, ctx: Value, trimEmpty: bool, db: Option<Backend>,
                                        conn: Connection, history: seq<Call>)
    requires BindAll(ps, ctx, trimEmpty, db, conn, history).Ok?
    ensures var calls := BindAll(ps, ctx, trimEmpty, db, conn, history).value;
      && |calls| == |history| + |ps| && calls[..|history|] == history
      && forall i :: 0 <= i < |ps| ==>
           Lookup(ctx, ps[i].path, trimEmpty).Ok? &&
           calls[|history| + i] == BindCall(ps[i], Lookup(ctx, ps[i].path, trimEmpty).value)
    decreases |ps|
  {
    if ps != [] {
      var call := BindCall(ps[0], Lookup(ctx, ps[0].path, trimEmpty).value);
      BindAllCalls(ps[1..], ctx, trimEmpty, db, conn, history + [call]);
      var calls := BindAll(ps, ctx, trimEmpty, db, conn, history).value;
      assert calls[..|history|] == (calls[..|history + [call]|])[..|history|];
      forall i | 0 <= i < |ps|
        ensures Lookup(ctx, ps[i].path, trimEmpty).Ok? &&
          calls[|history| + i] == BindCall(ps[i], Lookup(ctx, ps[i].path, trimEmpty).value)
      {
        if i > 0 {
          assert ps[i] == ps[1..][i - 1];
          assert calls[|history| + i] == calls[|history + [call]| + (i - 1)];
        } else {
          assert calls[|history|] == (history + [call])[|history|];
        }
      }
    }
  }

  /** On a connection that accepts every call, the binds fail exactly when some parameter's path selects nothing. */
  lemma {:induction false} BindAllFails(ps: seq<QueryParameter>, ctx: Value, trimEmpty: bool, db: Option<Backend>,
                                        conn: Connection, history: seq<Call>)
    requires forall h, c :: conn(db, h, c).Ok?
    ensures BindAll(ps, ctx, trimEmpty, db, conn, history).Err? <==>
      exists i :: 0 <= i < |ps| && Lookup(ctx, ps[i].path, trimEmpty).Err?
    decreases |ps|
  {
    if ps != [] {
      var first := Lookup(ctx, ps[0].path, trimEmpty);
      if first.Ok? {
        var call := BindCall(ps[0], first.value);
        assert conn(db, history, call).Ok?;
        BindAllFails(ps[1..], ctx, trimEmpty, db, conn, history + [call]);
        forall i | 1 <= i < |ps|
          ensures ps[1..][i - 1] == ps[i]
        {
        }
      }
    }
  }

  /** The conversation with the database up to execute: its result and the calls made. */
  function Exchange(n: RestNode, ctx: Value, trimEmpty: bool, conn: Connection): Result<(Value, seq<Call>)> {
    var db := n.database;
    var connected :- conn(db, [], Connect);
    var prepared :- conn(db, [Connect], Prepare(n.query));
    var history :- BindAll(n.parameters, ctx, trimEmpty, db, conn, [Connect, Prepare(n.query)]);
    var result :- conn(db, history, Execute);
    Ok((result, history + [Execute]))
  }

  /**
   * The calls of a successful conversation: connect, prepare the node's
   * query, one bind per parameter in order, then execute; the result is the
   * outcome of execute.
   */
  lemma ExchangeCalls(n: RestNode, ctx: Value, trimEmpty: bool, conn: Connection)
    requires Exchange(n, ctx, trimEmpty, conn).Ok?
    ensures var (result, calls) := Exchange(n, ctx, trimEmpty, conn).value;
      && |calls| == |n.parameters| + 3
      && calls[0] == Connect && calls[1] == Prepare(n.query) && calls[|calls| - 1] == Execute
      && result == conn(n.database, calls[..|calls| - 1], Execute).value
      && forall i :: 0 <= i < |n.parameters| ==>
           Lookup(ctx, n.parameters[i].path, trimEmpty).Ok? &&
           calls[2 + i] == BindCall(n.parameters[i], Lookup(ctx, n.parameters[i].path, trimEmpty).value)
  {
    var start := [Connect, Prepare(n.query)];
    BindAllCalls(n.parameters, ctx, trimEmpty, n.database, conn, start);
    var history := BindAll(n.parameters, ctx, trimEmpty, n.database, conn, start).value;
    assert history[..2] == start;
    assert (history + [Execute])[..|history|] == history;
  }

  // -------------------------------------------------------------- response

  /** processRequest once the configuration is known, in the given compiled state. */
  function Respond(c: Compiled, trimEmpty: bool, req: Request, env: Env): seq<Event>
    requires IdsBelow(c.trie, |c.routes|)
  {
    var (node, pathValues) := RouteFor(c.trie, c.routes, req.target, Null, trimEmpty);
    if node.Err? then [LogException(node.message)]
    else if node.value.special != "" then
      if node.value.special == API then [Write(STATUS_200), WriteJson(ConfigJson(c.databases, c.routes))]
      else [Write(STATUS_400), Write(UNKNOWN_SPECIAL + node.value.special), Write(STATUS_200), WriteJson(Null)]
    else
      match Context(c.root, pathValues, req.body, req.queryString, env.parse)
      case Err(e) => [LogException(e)]
      case Ok(ctx) =>
        match Exchange(node.value, ctx, trimEmpty, env.conn)
        case Err(e) => [LogException(e)]
        case Ok((result, calls)) =>
          match env.conn(node.value.database, calls, Close)
          case Err(e) => [LogJson(result), LogException(e)]
          case Ok(_) => [LogJson(result), Write(STATUS_200), WriteJson(result)]
  }

  /** An unknown route writes nothing and logs the route. */
  lemma RespondUnknownRoute(c: Compiled, trimEmpty: bool, req: Request, env: Env)
    requires IdsBelow(c.trie, |c.routes|)
    requires Match(c.trie, Tokens(req.target, "/", trimEmpty)).id == NO_ROUTE_MATCH
    ensures Respond(c, trimEmpty, req, env) == [LogException(UNKNOWN_ROUTE + req.target)]
  {
  }

  /** The route the target selects, as an index into the compiled routes. */
  function Routed(c: Compiled, trimEmpty: bool, target: string): int {
    Match(c.trie, Tokens(target, "/", trimEmpty)).id
  }

  /**
   * The api action answers with the sanitised configuration and touches
   * neither the request nor any database.
   */
  lemma RespondApi(c: Compiled, trimEmpty: bool, req: Request, env: Env, other: Env)
    requires IdsBelow(c.trie, |c.routes|)
    requires 0 <= Routed(c, trimEmpty, req.target) < |c.routes| && c.routes[Routed(c, trimEmpty, req.target)].special == API
    ensures Respond(c, trimEmpty, req, env) == [Write(STATUS_200), WriteJson(ConfigJson(c.databases, c.routes))]
    ensures Respond(c, trimEmpty, req, env) == Respond(c, trimEmpty, req.(body := "", queryString := ""), other)
  {
  }

  /** Any other special action is a 400 with a message, followed by a 200 with a null body. */
  lemma RespondUnknownSpecial(c: Compiled, trimEmpty: bool, req: Request, env: Env)
    requires IdsBelow(c.trie, |c.routes|)
    requires 0 <= Routed(c, trimEmpty, req.target) < |c.routes|
    requires var s := c.routes[Routed(c, trimEmpty, req.target)].special; s != "" && s != API
    ensures var s := c.routes[Routed(c, trimEmpty, req.target)].special;
      Respond(c, trimEmpty, req, env) == [Write(STATUS_400), Write(UNKNOWN_SPECIAL + s), Write(STATUS_200), WriteJson(Null)]
  {
  }

  /**
   * A query node answers 200 with the result of execute exactly when every
   * step succeeds; the result is also logged, and the answer is the outcome
   * of the execute call made after the binds.
   */
  lemma RespondQuery(c: Compiled, trimEmpty: bool, req: Request, env: Env)
    requires IdsBelow(c.trie, |c.routes|)
    requires 0 <= Routed(c, trimEmpty, req.target) < |c.routes| && c.routes[Routed(c, trimEmpty, req.target)].special == ""
    ensures var n := c.routes[Routed(c, trimEmpty, req.target)];
      var pathValues := ApplyCaptures(Null, Match(c.trie, Tokens(req.target, "/", trimEmpty)).captures);
      var ctx := Context(c.root, pathValues, req.body, req.queryString, env.parse);
      var ev := Respond(c, trimEmpty, req, env);
      && (ctx.Err? ==> ev == [LogException(ctx.message)])
      && (ctx.Ok? && Exchange(n, ctx.value, trimEmpty, env.conn).Err? ==>
            ev == [LogException(Exchange(n, ctx.value, trimEmpty, env.conn).message)])
      && (ctx.Ok? && Exchange(n, ctx.value, trimEmpty, env.conn).Ok? ==>
            var (result, calls) := Exchange(n, ctx.value, trimEmpty, env.conn).value;
            ev == if env.conn(n.database, calls, Close).Err?
                  then [LogJson(result), LogException(env.conn(n.database, calls, Close).message)]
                  else [LogJson(result), Write(STATUS_200), WriteJson(result)])
  {
  }

  /**
   * Every response is either a log entry and nothing written, or ends with
   * the 200 status line and a JSON body.
   */
  lemma RespondShape(c: Compiled, trimEmpty: bool, req: Request, env: Env)
    requires IdsBelow(c.trie, |c.routes|)
    ensures var ev := Respond(c, trimEmpty, req, env);
      || (|ev| == 1 && ev[0].LogException?)
      || (|ev| == 2 && ev[0].LogJson? && ev[1].LogException?)
      || (|ev| >= 2 && ev[|ev| - 2] == Write(STATUS_200) && ev[|ev| - 1].WriteJson?)
  {
  }

  /** A 400 line is written only for an unknown special action. */
  lemma RespondBadRequest(c: Compiled, trimEmpty: bool, req: Request, env: Env)
    requires IdsBelow(c.trie, |c.routes|)
    ensures Write(STATUS_400) in Respond(c, trimEmpty, req, env) ==>
      var m := Match(c.trie, Tokens(req.target, "/", trimEmpty));
      0 <= m.id < |c.routes| && c.routes[m.id].special != "" && c.routes[m.id].special != API
  {
    MatchIdBelow(c.trie, Tokens(req.target, "/", trimEmpty), |c.routes|);
    assert STATUS_200 != STATUS_400 by {
      assert |STATUS_200| != |STATUS_400|;
    }
  }

  /** processRequest with the configuration in hand: routing, then the action or the query. */
  method Serve(config: Config, req: Request, env: Env) returns (events: seq<Event>)
    requires config.Valid()
    ensures events == Respond(config.State(), config.trimEmpty, req, env)
  {
    var node, pathValues := config.GetRestNode(req.target, Null);
    if node.Err? {
      return [LogException(node.message)];
    }
    var n := node.value;
    if n.special != "" {
      if n.special == API {
        var result := config.ToJson();
        return [Write(STATUS_200), WriteJson(result)];
      }
      return [Write(STATUS_400), Write(UNKNOWN_SPECIAL + n.special), Write(STATUS_200), WriteJson(Null)];
    }
    var request := RequestJson(req.body, env.parse);
    if request.Err? {
      return [LogException(request.message)];
    }
    var query := ParseQueryString(req.queryString);
    if query.Err? {
      return [LogException(query.message)];
    }
    var ctx := ContextOf(config.root, pathValues, request.value, query.value);
    var bound := ServeQuery(n, ctx, config.trimEmpty, env.conn);
    events := bound;
  }

  /** The query half of processRequest: connect, prepare, bind each parameter, execute, close. */
  method ServeQuery(n: RestNode, ctx: Value, trimEmpty: bool, conn: Connection) returns (events: seq<Event>)
    ensures events == match Exchange(n, ctx, trimEmpty, conn)
      case Err(e) => [LogException(e)]
      case Ok((result, calls)) =>
        (match conn(n.database, calls, Close)
         case Err(e) => [LogJson(result), LogException(e)]
         case Ok(_) => [LogJson(result), Write(STATUS_200), WriteJson(result)])
  {
    var db := n.database;
    var connected := conn(db, [], Connect);
    if connected.Err? {
      return [LogException(connected.message)];
    }
    var prepared := conn(db, [Connect], Prepare(n.query));
    if prepared.Err? {
      return [LogException(prepared.message)];
    }
    var history := [Connect, Prepare(n.query)];
    for i := 0 to |n.parameters|
      invariant BindAll(n.parameters[i..], ctx, trimEmpty, db, conn, history)
        == BindAll(n.parameters, ctx, trimEmpty, db, conn, [Connect, Prepare(n.query)])
    {
      assert n.parameters[i..][1..] == n.parameters[i + 1..];
      var param := n.parameters[i];
      var found := QueryExpression(ctx, param.path, trimEmpty);
      if found.Failed? {
        var message := What(found.error);
        return [LogException(message)];
      }
      var call := BindCall(param, found.value);
      var bound := conn(db, history, call);
      if bound.Err? {
        return [LogException(bound.message)];
      }
      history := history + [call];
    }
    var result := conn(db, history, Execute);
    if result.Err? {
      return [LogException(result.message)];
    }
    history := history + [Execute];
    var closed := conn(db, history, Close);
    if closed.Err? {
      return [LogJson(result.value), LogException(closed.message)];
    }
    events := [LogJson(result.value), Write(STATUS_200), WriteJson(result.value)];
  }

  // ----------------------------------------------------------- ConfigCache

  /** ConfigCache: the compiled configuration of every file name loaded so far. */
  class ConfigCache {
    /** The trimEmpty setting of the configurations it compiles. */
    const trimEmpty: bool
    var cache: map<string, Config>
    ghost var Repr: set<object>

    ghost predicate Valid()
      reads this, Repr
    {
      && this in Repr
      && forall f :: f in cache ==>
           && cache[f] in Repr && cache[f].router in Repr && cache[f].router.Repr <= Repr
           && this !in cache[f].router.Repr
           && cache[f].Valid() && cache[f].trimEmpty == trimEmpty
    }

    constructor (trimEmpty: bool)
      ensures Valid() && fresh(Repr) && this.trimEmpty == trimEmpty && cache == map[]
    {
      this.trimEmpty := trimEmpty;
      cache := map[];
      Repr := {this};
    }

    /**
     * getConfig: a cached file name gives its configuration again; any other
     * is compiled into a new configuration, which is cached only when the
     * compilation succeeds.
     */
    method GetConfig(filename: string, load: string -> Result<Value>) returns (r: Result<Config>)
      requires Valid() && Loadable(load(filename), trimEmpty)
      modifies this
      ensures Valid() && fresh(Repr - old(Repr))
      ensures filename in old(cache) ==> cache == old(cache) && r == Ok(cache[filename])
      ensures filename !in old(cache) ==>
        match Compile(FRESH, load(filename), trimEmpty)
        case Ok(c) => r.Ok? && fresh(r.value) && cache == old(cache)[filename := r.value] && r.value.State() == c
        case Err(e) => r == Err(e) && cache == old(cache)
    {
      if filename in cache {
        return Ok(cache[filename]);
      }
      var loaded := Load(load(filename));
      if loaded.Err? {
        return loaded;
      }
      ghost var added := {loaded.value, loaded.value.router} + loaded.value.router.Repr;
      Remember(filename, loaded.value);
      assert Repr - old(Repr) <= added;
      r := loaded;
    }

    /** Caches a configuration compiled for a file name not cached yet. */
    method Remember(filename: string, config: Config)
      requires Valid() && config.Valid() && config.trimEmpty == trimEmpty
      requires config !in Repr && config.router !in Repr && config.router.Repr !! Repr && this !in config.router.Repr
      modifies this
      ensures Valid() && cache == old(cache)[filename := config]
      ensures Repr == old(Repr) + {config, config.router} + config.router.Repr
    {
      ghost var before := cache;
      cache := cache[filename := config];
      Repr := Repr + {config, config.router} + config.router.Repr;
      forall f | f in cache
        ensures && cache[f] in Repr && cache[f].router in Repr && cache[f].router.Repr <= Repr
                && this !in cache[f].router.Repr && cache[f].Valid() && cache[f].trimEmpty == trimEmpty
      {
        if f != filename {
          assert cache[f] == before[f];
        }
      }
    }

    /** A new configuration, loaded from the outcome of reading and parsing its file. */
    method Load(parsed: Result<Value>) returns (r: Result<Config>)
      requires Loadable(parsed, trimEmpty)
      ensures match Compile(FRESH, parsed, trimEmpty)
        case Ok(c) => r.Ok? && r.value.State() == c
        case Err(e) => r == Err(e)
      ensures r.Ok? ==> fresh({r.value, r.value.router} + r.value.router.Repr)
      ensures r.Ok? ==> r.value.Valid() && r.value.trimEmpty == trimEmpty
    {
      var config := new Config(trimEmpty);
      var s := config.LoadConfig(parsed);
      if s.Fail? {
        return Err(s.message);
      }
      r := Ok(config);
    }

    /** processRequest: the configuration of the request's file, then the response. */
    method ProcessRequest(filename: string, req: Request, env: Env) returns (events: seq<Event>)
      requires Valid() && Loadable(env.load(filename), trimEmpty)
      modifies this
      ensures Valid() && fresh(Repr - old(Repr))
      ensures filename in old(cache) ==>
        cache == old(cache) && events == Respond(cache[filename].State(), trimEmpty, req, env)
      ensures filename !in old(cache) ==>
        match Compile(FRESH, env.load(filename), trimEmpty)
        case Ok(c) => filename in cache && cache[filename].State() == c && cache[filename].Valid()
          && events == Respond(c, trimEmpty, req, env)
        case Err(e) => cache == old(cache) && events == [LogException(e)]
    {
      var config := GetConfig(filename, env.load);
      if config.Err? {
        return [LogException(config.message)];
      }
      events := Serve(config.value, req, env);
    }
  }
}
