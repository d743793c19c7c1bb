/**
 * The configuration compiler: a configuration document names its databases
 * under "DB" and its REST routes under "REST"; compiling it builds each
 * backend, a route trie keyed by the '/'-separated route path, and one REST
 * node per route holding the query and the parameters to bind.
 */
module Configure {
  import opened Errors
  import opened Json
  import opened KeyOrder
  import opened Utils
  import opened Router
  import opened Database

  // ---------------------------------------------------------- parameter types

  const NOT_SCALAR: string := "Expected a scalar type expression"

  /** getJsonScalarType: the five scalar type names. */
  function ScalarType(name: string): (r: Result<ValueType>)
    ensures r.Ok? <==> name == "int" || name == "uint" || name == "real" || name == "string" || name == "bool"
    ensures r == Ok(IntValue) <==> name == "int"
    ensures r == Ok(UIntValue) <==> name == "uint"
    ensures r == Ok(RealValue) <==> name == "real"
    ensures r == Ok(StringValue) <==> name == "string"
    ensures r == Ok(BooleanValue) <==> name == "bool"
    ensures r.Err? ==> r.message == NOT_SCALAR
  {
    if name == "int" then Ok(IntValue)
    else if name == "uint" then Ok(UIntValue)
    else if name == "real" then Ok(RealValue)
    else if name == "string" then Ok(StringValue)
    else if name == "bool" then Ok(BooleanValue)
    else Err(NOT_SCALAR)
  }

  // ---------------------------------------------------------- QueryParameter

  /**
   * One parameter of a REST node: where its value is found (a dot path into
   * the request context), the name it is bound under ("" for positional), and
   * the declared default, type and validation, which binding never reads.
   */
  datatype QueryParameter = QueryParameter(
    name: string, path: string, validation: string, defaultValue: Value, kind: ValueType)

  const PARAM_SHAPE: string := "Parameter config element must be an object or string"

  /** A member converted with asString when present, and "" when absent. */
  function OptionalText(v: Value, key: string): (r: Result<string>)
    requires IsObject(v)
    ensures !HasMember(v, key) ==> r == Ok("")
    ensures HasMember(v, key) ==> r == AsString(v.members[key])
  {
    if HasMember(v, key) then AsString(Member(v, key)) else Ok("")
  }

  /** QueryParameter(const Json::Value&): a bare string is a path; an object spells the fields out. */
  function ParameterOf(param: Value): Result<QueryParameter> {
    if param.Object? then
      var path :- AsString(Member(param, "path"));
      var name :- OptionalText(param, "name");
      var kind :-
        if HasMember(param, "type") then
          var t :- AsString(Member(param, "type"));
          ScalarType(t)
        else Ok(NullValue);
      var defaultValue :-
        if HasMember(param, "default") then
          var d :- AsString(Member(param, "default"));
          Ok(String(d))
        else Ok(Null);
      var validation :- OptionalText(param, "validation");
      Ok(QueryParameter(name, path, validation, defaultValue, kind))
    else if param.String? then
      Ok(QueryParameter("", CString(param.s), "", Null, NullValue))
    else
      Err(PARAM_SHAPE)
  }

  /** A string is a path with every other field empty; anything but an object or a string is refused. */
  lemma ParameterShapes(param: Value)
    ensures param.String? ==> ParameterOf(param) == Ok(QueryParameter("", CString(param.s), "", Null, NullValue))
    ensures !param.Object? && !param.String? ==> ParameterOf(param) == Err(PARAM_SHAPE)
  {
  }

  /** A field member that asString accepts without complaint. */
  predicate TextOrAbsent(v: Value, key: string)
    requires v.Object?
  {
    key !in v.members || v.members[key].String?
  }

  /**
   * An object whose members are strings or absent: the path defaults to "",
   * name and validation to "", the default to null (and is otherwise kept as
   * a string), and the type to null; a type that is present must name a
   * scalar type.
   */
  lemma ParameterFromObject(param: Value)
    requires param.Object?
    requires TextOrAbsent(param, "path") && TextOrAbsent(param, "name") && TextOrAbsent(param, "default")
    requires TextOrAbsent(param, "validation") && TextOrAbsent(param, "type")
    ensures var r := ParameterOf(param);
      && (r.Ok? <==> !HasMember(param, "type") || ScalarType(CString(param.members["type"].s)).Ok?)
      && (r.Err? ==> r.message == NOT_SCALAR)
      && (r.Ok? ==>
            && r.value.path == (if HasMember(param, "path") then CString(param.members["path"].s) else "")
            && r.value.name == (if HasMember(param, "name") then CString(param.members["name"].s) else "")
            && r.value.validation == (if HasMember(param, "validation") then CString(param.members["validation"].s) else "")
            && r.value.defaultValue == (if HasMember(param, "default") then String(CString(param.members["default"].s)) else Null)
            && r.value.kind == (if HasMember(param, "type") then ScalarType(CString(param.members["type"].s)).value else NullValue))
  {
  }

  /** A type member is parsed whenever it is present, so a null or empty type is refused. */
  lemma ParameterTypeParsed(param: Value)
    requires param.Object? && HasMember(param, "type")
    requires AsString(Member(param, "path")).Ok? && AsString(Member(param, "name")).Ok?
    requires param.members["type"] == Null || param.members["type"] == String("")
    ensures ParameterOf(param) == Err(NOT_SCALAR)
  {
  }

  /** The shapes of the parameter unit test: refused, bare path, empty object, every field. */
  lemma ParameterExamples()
    ensures ParameterOf(Array([])) == Err(PARAM_SHAPE)
    ensures ParameterOf(String("foobar")) == Ok(QueryParameter("", "foobar", "", Null, NullValue))
    ensures ParameterOf(Object(map[])) == Ok(QueryParameter("", "", "", Null, NullValue))
    ensures ParameterOf(Object(map["name" := String("foo"), "path" := String("bar"), "validation" := String("val"),
                                   "default" := String("gorf"), "type" := String("string")]))
      == Ok(QueryParameter("foo", "bar", "val", String("gorf"), StringValue))
  {
    assert AsString(String("foobar")) == Ok("foobar");
    ParameterFullExample();
  }

  lemma ParameterFullExample()
    ensures ParameterOf(Object(map["name" := String("foo"), "path" := String("bar"), "validation" := String("val"),
                                   "default" := String("gorf"), "type" := String("string")]))
      == Ok(QueryParameter("foo", "bar", "val", String("gorf"), StringValue))
  {
    var full := Object(map["name" := String("foo"), "path" := String("bar"), "validation" := String("val"),
                           "default" := String("gorf"), "type" := String("string")]);
    ParameterFromObject(full);
  }

  /** The cases of the parameter unit test that add name, path, validation and default one by one. */
  lemma ParameterFieldExamples()
    ensures ParameterOf(Object(map["name" := String("foo"), "path" := String("bar")]))
      == Ok(QueryParameter("foo", "bar", "", Null, NullValue))
    ensures ParameterOf(Object(map["name" := String("foo"), "path" := String("bar"), "validation" := String("val")]))
      == Ok(QueryParameter("foo", "bar", "val", Null, NullValue))
    ensures ParameterOf(Object(map["name" := String("foo"), "path" := String("bar"), "validation" := String("val"),
                                   "default" := String("gorf")]))
      == Ok(QueryParameter("foo", "bar", "val", String("gorf"), NullValue))
  {
    ParameterFromObject(Object(map["name" := String("foo"), "path" := String("bar")]));
    ParameterFromObject(Object(map["name" := String("foo"), "path" := String("bar"), "validation" := String("val")]));
    ParameterFromObject(Object(map["name" := String("foo"), "path" := String("bar"), "validation" := String("val"),
                                   "default" := String("gorf")]));
  }

  /** A parameter with only a type: the type name decides, every other field keeps its default. */
  lemma TypeOnlyParameter(t: string)
    requires '\0' !in t
    ensures ParameterOf(Object(map["type" := String(t)])) ==
      match ScalarType(t)
      case Ok(kind) => Ok(QueryParameter("", "", "", Null, kind))
      case Err(e) => Err(e)
  {
    var param := Object(map["type" := String(t)]);
    assert !HasMember(param, "path") && !HasMember(param, "name");
    assert !HasMember(param, "default") && !HasMember(param, "validation");
    assert AsString(Member(param, "type")) == Ok(t);
  }

  /** The type cases of the parameter unit test that name the five scalar types. */
  lemma ParameterTypeExamples()
    ensures ParameterOf(Object(map["type" := String("string")])) == Ok(QueryParameter("", "", "", Null, StringValue))
    ensures ParameterOf(Object(map["type" := String("int")])) == Ok(QueryParameter("", "", "", Null, IntValue))
    ensures ParameterOf(Object(map["type" := String("uint")])) == Ok(QueryParameter("", "", "", Null, UIntValue))
    ensures ParameterOf(Object(map["type" := String("real")])) == Ok(QueryParameter("", "", "", Null, RealValue))
    ensures ParameterOf(Object(map["type" := String("bool")])) == Ok(QueryParameter("", "", "", Null, BooleanValue))
  {
    TypeOnlyParameter("string");
    TypeOnlyParameter("int");
    TypeOnlyParameter("uint");
    TypeOnlyParameter("real");
    TypeOnlyParameter("bool");
  }

  /** The type cases of the parameter unit test that are refused: empty, unknown and null. */
  lemma ParameterRefusedTypeExamples()
    ensures ParameterOf(Object(map["type" := String("")])) == Err(NOT_SCALAR)
    ensures ParameterOf(Object(map["type" := String("foobar")])) == Err(NOT_SCALAR)
    ensures ParameterOf(Object(map["type" := Null])) == Err(NOT_SCALAR)
  {
    TypeOnlyParameter("");
    TypeOnlyParameter("foobar");
  }

  /** The parameters compiled in declaration order after acc; the first refused one stops the walk. */
  function ParametersFrom(acc: seq<QueryParameter>, values: seq<Value>): (r: Result<seq<QueryParameter>>)
    ensures r.Ok? ==> |r.value| == |acc| + |values| && r.value[..|acc|] == acc
    ensures r.Ok? ==> forall i :: 0 <= i < |values| ==> ParameterOf(values[i]) == Ok(r.value[|acc| + i])
    ensures r.Err? <==> exists i :: 0 <= i < |values| && ParameterOf(values[i]).Err?
    decreases |values|
  {
    if values == [] then Ok(acc)
    else
      var p :- ParameterOf(values[0]);
      var r := ParametersFrom(acc + [p], values[1..]);
      assert forall i :: 1 <= i < |values| ==> values[i] == values[1..][i - 1];
      r
  }

  // ---------------------------------------------------------------- RestNode

  /**
   * A compiled REST route.  A meta node carries its special action and no
   * database; an ordinary one the database it runs on, its name, the query
   * text and the parameters.
   */
  datatype RestNode = RestNode(
    path: string, special: string, database: Option<Backend>, databaseName: string,
    query: string, parameters: seq<QueryParameter>)

  const REST_NOT_OBJECT: string := "REST node must be an object"

  function MissingDatabase(name: string): string {
    "Database " + name + " does not exist."
  }

  /** Config::getDatabase. */
  function DatabaseNamed(databases: map<string, Backend>, name: string): (r: Result<Backend>)
    ensures r.Ok? <==> name in databases
    ensures r.Ok? ==> r.value == databases[name]
    ensures r.Err? ==> r.message == MissingDatabase(name)
  {
    if name !in databases then Err(MissingDatabase(name)) else Ok(databases[name])
  }

  /** A string "special" member marks a meta node. */
  predicate IsMeta(node: Value)
    requires node.Object?
  {
    HasMember(node, "special") && node.members["special"].String?
  }

  /** RestNode(config, path, root). */
  function RestNodeOf(databases: map<string, Backend>, path: string, node: Value): (r: Result<RestNode>)
    ensures r.Ok? ==> r.value.path == path
  {
    if !node.Object? then Err(REST_NOT_OBJECT)
    else if IsMeta(node) then Ok(RestNode(path, CString(node.members["special"].s), None, "", "", []))
    else QueryNode(databases, path, node)
  }

  /** An ordinary node: its database, "default" unless named, its query and its parameters. */
  function QueryNode(databases: map<string, Backend>, path: string, node: Value): (r: Result<RestNode>)
    requires node.Object?
    ensures r.Ok? ==> r.value.path == path && r.value.special == ""
  {
    var dbName :- AsString(GetOr(node, "database", String("default")));
    var database :- DatabaseNamed(databases, dbName);
    var query :- AsString(Member(node, "query"));
    var parameters :- ParametersFrom([], Elements(Member(node, "params")));
    Ok(RestNode(path, "", Some(database), dbName, query, parameters))
  }

  /**
   * A node must be an object; a string special makes a meta node; otherwise
   * the database, "default" unless named, must exist, and the parameters are
   * the compiled params in declaration order.
   */
  lemma RestNodeMeaning(databases: map<string, Backend>, path: string, node: Value)
    ensures !node.Object? ==> RestNodeOf(databases, path, node) == Err(REST_NOT_OBJECT)
    ensures node.Object? && IsMeta(node) ==>
      RestNodeOf(databases, path, node) == Ok(RestNode(path, CString(node.members["special"].s), None, "", "", []))
    ensures node.Object? && !IsMeta(node) ==> RestNodeOf(databases, path, node) == QueryNode(databases, path, node)
  {
  }

  /**
   * An ordinary node's database, "default" unless named, must exist; the node
   * holds that backend, the query text and the compiled params in
   * declaration order.
   */
  lemma QueryNodeMeaning(databases: map<string, Backend>, path: string, node: Value)
    requires node.Object?
    ensures var dbName := AsString(GetOr(node, "database", String("default")));
      dbName.Ok? && dbName.value !in databases ==> QueryNode(databases, path, node) == Err(MissingDatabase(dbName.value))
    ensures var r := QueryNode(databases, path, node);
      r.Ok? ==>
        && AsString(GetOr(node, "database", String("default"))) == Ok(r.value.databaseName)
        && r.value.databaseName in databases
        && r.value.database == Some(databases[r.value.databaseName])
        && AsString(Member(node, "query")) == Ok(r.value.query)
        && var values := Elements(Member(node, "params"));
           |r.value.parameters| == |values| &&
           forall i :: 0 <= i < |values| ==> ParameterOf(values[i]) == Ok(r.value.parameters[i])
  {
    var r := QueryNode(databases, path, node);
    if r.Ok? {
      var values := Elements(Member(node, "params"));
      var ps := ParametersFrom([], values);
      assert ps.Ok? && ps.value == r.value.parameters;
      forall i | 0 <= i < |values| ensures ParameterOf(values[i]) == Ok(r.value.parameters[i]) {
        assert ParameterOf(values[i]) == Ok(ps.value[0 + i]);
      }
    }
  }

  lemma RestNodeExamples()
    ensures RestNodeOf(map[], "", Array([])) == Err(REST_NOT_OBJECT)
    ensures RestNodeOf(map[], "", String("foobar")) == Err(REST_NOT_OBJECT)
    ensures RestNodeOf(map[], "", Null) == Err(REST_NOT_OBJECT)
  {
  }

  /** An empty node asks for the "default" database. */
  lemma RestNodeNeedsDefault()
    ensures RestNodeOf(map[], "", Object(map[])) == Err("Database default does not exist.")
  {
    var node := Object(map[]);
    assert !IsMeta(node);
    assert GetOr(node, "database", String("default")) == String("default");
    assert AsString(String("default")) == Ok("default");
    assert DatabaseNamed(map[], "default") == Err(MissingDatabase("default"));
    assert QueryNode(map[], "", node) == Err(MissingDatabase("default"));
    MissingDefaultMessage();
  }

  lemma MissingDefaultMessage()
    ensures MissingDatabase("default") == "Database default does not exist."
  {
  }

  /** The REST node constructor, with its loop over the params. */
  method CompileRestNode(databases: map<string, Backend>, path: string, node: Value) returns (r: Result<RestNode>)
    ensures r == RestNodeOf(databases, path, node)
  {
    if !node.Object? {
      return Err(REST_NOT_OBJECT);
    }
    if IsMeta(node) {
      return Ok(RestNode(path, CString(node.members["special"].s), None, "", "", []));
    }
    var dbName :- AsString(GetOr(node, "database", String("default")));
    var database :- DatabaseNamed(databases, dbName);
    var query :- AsString(Member(node, "query"));
    var values := Elements(Member(node, "params"));
    var parameters := [];
    for i := 0 to |values|
      invariant ParametersFrom(parameters, values[i..]) == ParametersFrom([], values)
    {
      assert values[i..][1..] == values[i + 1..];
      var p :- ParameterOf(values[i]);
      parameters := parameters + [p];
    }
    r := Ok(RestNode(path, "", Some(database), dbName, query, parameters));
  }

  // ------------------------------------------------------------ toJson dumps

  /** The dump of one parameter; the type is written as the default value of that type. */
  function ParameterJson(p: QueryParameter): Value {
    Object(map["name" := String(p.name), "path" := String(p.path), "default" := p.defaultValue,
               "type" := DefaultOf(p.kind), "validation" := String(p.validation)])
  }

  /** The params array: null when there are none, since nothing was appended. */
  function ParametersJson(ps: seq<QueryParameter>): Value {
    if ps == [] then Null else Array(seq(|ps|, i requires 0 <= i < |ps| => ParameterJson(ps[i])))
  }

  /** RestNode::toJson. */
  function NodeJson(n: RestNode): Value {
    if n.special != "" then Object(map["special" := String(n.special)])
    else Object(map["params" := ParametersJson(n.parameters), "database" := String(n.databaseName)])
  }

  /**
   * The dump shows a meta node's action and nothing else, and otherwise only
   * the database name and the parameters; neither the query text nor the
   * backend is ever part of it.
   */
  lemma NodeJsonMeaning(n: RestNode, query: string, database: Option<Backend>)
    ensures NodeJson(n) == NodeJson(n.(query := query, database := database))
    ensures n.special != "" ==> NodeJson(n).members.Keys == {"special"}
    ensures n.special == "" ==> NodeJson(n).members.Keys == {"params", "database"}
    ensures n.special == "" ==> Member(NodeJson(n), "database") == String(n.databaseName)
    ensures n.special == "" ==> (Member(NodeJson(n), "params").Null? <==> n.parameters == [])
    ensures n.special == "" && n.parameters != [] ==>
      var items := Member(NodeJson(n), "params").items;
      |items| == |n.parameters| && forall i :: 0 <= i < |items| ==> items[i] == ParameterJson(n.parameters[i])
  {
  }

  /** RestNode::toJson, with its loop appending the parameters. */
  method NodeToJson(n: RestNode) returns (result: Value)
    ensures result == NodeJson(n)
  {
    if n.special != "" {
      result := SetMember(Null, "special", String(n.special));
    } else {
      var params := Null;
      for i := 0 to |n.parameters|
        invariant params == ParametersJson(n.parameters[..i])
      {
        params := Append(params, ParameterJson(n.parameters[i]));
        assert params.items == seq(i + 1, j requires 0 <= j < i + 1 => ParameterJson(n.parameters[..i + 1][j]));
      }
      assert n.parameters[..|n.parameters|] == n.parameters;
      result := SetMember(SetMember(Null, "params", params), "database", String(n.databaseName));
    }
  }

  /** The "DB" part of the configuration dump: every name mapped to itself. */
  function DbDump(names: set<string>): Value {
    if names == {} then Null else Object(map["DB" := Object(map n | n in names :: String(n))])
  }

  /** The "REST" members of the dump after the given routes, a later path overwriting an earlier one. */
  function RouteDump(routes: seq<RestNode>): map<string, Value> {
    if routes == [] then map[]
    else RouteDump(routes[..|routes| - 1])[routes[|routes| - 1].path := NodeJson(routes[|routes| - 1])]
  }

  function RestDump(base: Value, routes: seq<RestNode>): Value
    requires IsObject(base)
  {
    if routes == [] then base else SetMember(base, "REST", Object(RouteDump(routes)))
  }

  /** Config::toJson. */
  function ConfigJson(databases: map<string, Backend>, routes: seq<RestNode>): Value {
    RestDump(DbDump(databases.Keys), routes)
  }

  lemma {:induction false} RouteDumpKeys(routes: seq<RestNode>)
    ensures forall p :: p in RouteDump(routes) <==> exists i :: 0 <= i < |routes| && routes[i].path == p
    decreases |routes|
  {
    if routes != [] {
      var front := routes[..|routes| - 1];
      RouteDumpKeys(front);
      assert forall i :: 0 <= i < |front| ==> front[i] == routes[i];
    }
  }

  lemma {:induction false} RouteDumpDistinct(routes: seq<RestNode>, i: nat)
    requires i < |routes|
    requires forall j, k :: 0 <= j < k < |routes| ==> routes[j].path != routes[k].path
    ensures routes[i].path in RouteDump(routes) && RouteDump(routes)[routes[i].path] == NodeJson(routes[i])
    decreases |routes|
  {
    RouteDumpKeys(routes[..|routes| - 1]);
    if i < |routes| - 1 {
      var front := routes[..|routes| - 1];
      assert front[i] == routes[i];
      RouteDumpDistinct(front, i);
    }
  }

  /**
   * The dump names every database as itself under "DB" and gives each route
   * path, when the paths differ, the dump of its node under "REST"; an empty
   * configuration dumps as null.
   */
  lemma ConfigJsonMeaning(databases: map<string, Backend>, routes: seq<RestNode>)
    requires forall j, k :: 0 <= j < k < |routes| ==> routes[j].path != routes[k].path
    ensures databases == map[] && routes == [] ==> ConfigJson(databases, routes) == Null
    ensures databases != map[] ==>
      Member(ConfigJson(databases, routes), "DB") == Object(map n | n in databases :: String(n))
    ensures databases == map[] ==> !HasMember(ConfigJson(databases, routes), "DB")
    ensures routes != [] ==> Member(ConfigJson(databases, routes), "REST").Object?
    ensures forall i :: 0 <= i < |routes| ==>
      Member(Member(ConfigJson(databases, routes), "REST"), routes[i].path) == NodeJson(routes[i])
  {
    if databases != map[] {
      var k :| k in databases;
      assert k in databases.Keys;
    }
    forall i | 0 <= i < |routes|
      ensures Member(Member(ConfigJson(databases, routes), "REST"), routes[i].path) == NodeJson(routes[i])
    {
      RouteDumpDistinct(routes, i);
      RouteDumpKeys(routes);
    }
  }

  /** The dump is the same whatever the routes' queries and backends. */
  lemma {:induction false} ConfigJsonHidesQueries(databases: map<string, Backend>, routes: seq<RestNode>, others: seq<RestNode>)
    requires |others| == |routes|
    requires forall i :: 0 <= i < |routes| ==>
      others[i] == routes[i].(query := others[i].query, database := others[i].database)
    ensures ConfigJson(databases, routes) == ConfigJson(databases, others)
    decreases |routes|
  {
    if routes != [] {
      var n := |routes| - 1;
      NodeJsonMeaning(routes[n], others[n].query, others[n].database);
      ConfigJsonHidesQueries(databases, routes[..n], others[..n]);
      if n > 0 {
        assert RouteDump(routes[..n]) == RouteDump(others[..n]);
      }
    }
  }

  function NamesIn(names: seq<string>): set<string> {
    set i | 0 <= i < |names| :: names[i]
  }

  lemma NamesInSnoc(names: seq<string>, i: nat)
    requires i < |names|
    ensures NamesIn(names[..i + 1]) == NamesIn(names[..i]) + {names[i]}
  {
    var before := NamesIn(names[..i]);
    var after := NamesIn(names[..i + 1]);
    forall n | n in after ensures n in before + {names[i]} {
      var j :| 0 <= j < i + 1 && names[..i + 1][j] == n;
      if j < i {
        assert names[..i][j] == n;
      }
    }
    forall n | n in before ensures n in after {
      var j :| 0 <= j < i && names[..i][j] == n;
      assert names[..i + 1][j] == n;
    }
    assert names[..i + 1][i] == names[i];
  }

  /** One step of the loop over the database names. */
  lemma DbDumpStep(names: seq<string>, i: nat)
    requires i < |names|
    ensures IsObject(DbDump(NamesIn(names[..i]))) && IsObject(Member(DbDump(NamesIn(names[..i])), "DB"))
    ensures var d := DbDump(NamesIn(names[..i]));
      DbDump(NamesIn(names[..i + 1])) == SetMember(d, "DB", SetMember(Member(d, "DB"), names[i], String(names[i])))
  {
    var before := NamesIn(names[..i]);
    NamesInSnoc(names, i);
    DbDumpAdd(before, names[i]);
  }

  lemma DbDumpAdd(before: set<string>, name: string)
    ensures IsObject(DbDump(before)) && IsObject(Member(DbDump(before), "DB"))
    ensures var d := DbDump(before);
      DbDump(before + {name}) == SetMember(d, "DB", SetMember(Member(d, "DB"), name, String(name)))
  {
    var m := map n | n in before :: String(n);
    assert (map n | n in before + {name} :: String(n)) == m[name := String(name)];
    if before != {} {
      var k :| k in before;
      assert k in m;
    }
  }

  /** The REST section is never part of the DB dump. */
  lemma DbDumpHasNoRest(names: set<string>)
    ensures !HasMember(DbDump(names), "REST")
  {
  }

  /** One step of the loop over the routes. */
  lemma RestDumpStep(base: Value, routes: seq<RestNode>, i: nat)
    requires IsObject(base) && !HasMember(base, "REST") && i < |routes|
    ensures var d := RestDump(base, routes[..i]);
      RestDump(base, routes[..i + 1]) == SetMember(d, "REST", SetMember(Member(d, "REST"), routes[i].path, NodeJson(routes[i])))
  {
    assert routes[..i + 1][..i] == routes[..i];
    var rest := RouteDump(routes[..i + 1]);
    assert rest == RouteDump(routes[..i])[routes[i].path := NodeJson(routes[i])];
    if i > 0 {
      var d := SetMember(base, "REST", Object(RouteDump(routes[..i])));
      if base.Null? {
        assert d.members["REST" := Object(rest)] == map["REST" := Object(rest)];
      } else {
        assert d.members["REST" := Object(rest)] == base.members["REST" := Object(rest)];
      }
    }
  }

  lemma NamesInKeys<V>(m: map<string, V>)
    ensures NamesIn(SortedKeys(m)) == m.Keys
  {
    var names := SortedKeys(m);
    forall n | n in m.Keys ensures n in NamesIn(names) {
      var j :| 0 <= j < |names| && names[j] == n;
    }
  }

  // ------------------------------------------------------------ compilation

  const ROOT_NOT_OBJECT: string := "Root config element must be an object"
  const DB_NOT_OBJECT: string := "DB config must be an object"
  const DB_CHILD_NOT_OBJECT: string := "DB config child node must be an object"

  /** The databases after compiling the listed children of the DB section, in order. */
  function CompileDatabases(databases: map<string, Backend>, dbNode: Value, keys: seq<string>): Result<map<string, Backend>>
    requires IsObject(dbNode)
    decreases |keys|
  {
    if keys == [] then Ok(databases)
    else
      var value := Member(dbNode, keys[0]);
      if !IsObject(value) then Err(DB_CHILD_NOT_OBJECT)
      else
        var backend :- FactoryCreate(value);
        CompileDatabases(databases[keys[0] := backend], dbNode, keys[1..])
  }

  /** Route paths whose token lists are non-empty, as addRoute needs. */
  predicate Routable(keys: seq<string>, trimEmpty: bool) {
    forall i :: 0 <= i < |keys| ==> Tokens(keys[i], "/", trimEmpty) != []
  }

  /**
   * The trie and the route table after compiling the listed REST members in
   * order: each path is inserted with the id routes.size() and then its node
   * is appended.
   */
  function CompileRoutes(trie: Trie, routes: seq<RestNode>, databases: map<string, Backend>,
                         restNode: Value, keys: seq<string>, trimEmpty: bool): Result<(Trie, seq<RestNode>)>
    requires IsObject(restNode) && Routable(keys, trimEmpty)
    decreases |keys|
  {
    if keys == [] then Ok((trie, routes))
    else
      var next :- RouteStep(trie, routes, databases, restNode, keys[0], trimEmpty);
      CompileRoutes(next.0, next.1, databases, restNode, keys[1..], trimEmpty)
  }

  /** One REST member: its path goes into the trie with the id routes.size(), then its node is appended. */
  function RouteStep(trie: Trie, routes: seq<RestNode>, databases: map<string, Backend>,
                     restNode: Value, key: string, trimEmpty: bool): (r: Result<(Trie, seq<RestNode>)>)
    requires IsObject(restNode) && Tokens(key, "/", trimEmpty) != []
    ensures r.Ok? ==> |r.value.1| == |routes| + 1 && r.value.1 == routes + [r.value.1[|routes|]]
    ensures r.Ok? ==> r.value.1[|routes|].path == key
    ensures r.Ok? ==> Insert(trie, Tokens(key, "/", trimEmpty), |routes|) == Ok(r.value.0)
  {
    var trie' :- Insert(trie, Tokens(key, "/", trimEmpty), |routes|);
    var node :- RestNodeOf(databases, key, Member(restNode, key));
    Ok((trie', routes + [node]))
  }

  /** What the configuration holds: the (touched) document, the debug flag, the databases, the trie, the routes. */
  datatype Compiled = Compiled(
    root: Value, debugMode: bool, databases: map<string, Backend>, trie: Trie, routes: seq<RestNode>)

  /** The members of the REST section of a document, before any compilation. */
  function RestMembers(document: Value): set<string> {
    if document.Object? && "REST" in document.members && document.members["REST"].Object?
    then document.members["REST"].members.Keys else {}
  }

  /** Every REST path of the document tokenises to at least one token. */
  predicate RoutablePaths(document: Value, trimEmpty: bool) {
    forall k :: k in RestMembers(document) ==> Tokens(k, "/", trimEmpty) != []
  }

  /** The REST paths of a parsed document all tokenise to at least one token. */
  predicate Loadable(parsed: Result<Value>, trimEmpty: bool) {
    parsed.Ok? ==> RoutablePaths(parsed.value, trimEmpty)
  }

  lemma RoutableKeys(document: Value, keys: seq<string>, trimEmpty: bool)
    requires RoutablePaths(document, trimEmpty) && IsObject(document)
    requires MemberNames(Member(Touch(document, "REST"), "REST")) == Ok(keys)
    ensures Routable(keys, trimEmpty)
  {
    var restNode := Member(Touch(document, "REST"), "REST");
    assert restNode == Member(document, "REST");
    forall i | 0 <= i < |keys| ensures Tokens(keys[i], "/", trimEmpty) != [] {
      assert keys[i] in RestMembers(document);
    }
  }

  lemma TouchKeepsRest(document: Value)
    requires IsObject(document)
    ensures RestMembers(Touch(document, "DB")) == RestMembers(document)
  {
    assert Member(Touch(document, "DB"), "REST") == Member(document, "REST");
  }

  /** Config::loadConfig on a configuration in the given state, given the outcome of reading and parsing the file. */
  function Compile(state: Compiled, parsed: Result<Value>, trimEmpty: bool): Result<Compiled>
    requires Loadable(parsed, trimEmpty)
  {
    var document :- parsed;
    if !IsObject(document) then Err(ROOT_NOT_OBJECT)
    else
      var debugMode := AsBool(GetOr(document, "debug", Bool(false)));
      var withDb := Touch(document, "DB");
      var dbNode := Member(withDb, "DB");
      if !IsObject(dbNode) then Err(DB_NOT_OBJECT)
      else
        var databases :- CompileDatabases(state.databases, dbNode, MemberNames(dbNode).value);
        TouchKeepsRest(document);
        CompileRest(state.trie, state.routes, withDb, debugMode, databases, trimEmpty)
  }

  /** The REST half of loadConfig, once the databases are built. */
  function CompileRest(trie: Trie, routes: seq<RestNode>, withDb: Value, debugMode: bool,
                       databases: map<string, Backend>, trimEmpty: bool): Result<Compiled>
    requires IsObject(withDb) && RoutablePaths(withDb, trimEmpty)
  {
    var root := Touch(withDb, "REST");
    // The source's guard on the REST section tests the DB section again, so it never fires.
    var keys :- MemberNames(Member(root, "REST"));
    RoutableKeys(withDb, keys, trimEmpty);
    var compiled :- CompileRoutes(trie, routes, databases, Member(root, "REST"), keys, trimEmpty);
    Ok(Compiled(root, debugMode, databases, compiled.0, compiled.1))
  }

  /** The structural checks: the root and the DB section must be objects (null counts as one). */
  lemma CompileRejects(state: Compiled, document: Value, trimEmpty: bool)
    requires Loadable(Ok(document), trimEmpty)
    ensures !IsObject(document) ==> Compile(state, Ok(document), trimEmpty) == Err(ROOT_NOT_OBJECT)
    ensures IsObject(document) && !IsObject(Member(document, "DB")) ==>
      Compile(state, Ok(document), trimEmpty) == Err(DB_NOT_OBJECT)
    ensures forall msg :: Compile(state, Err(msg), trimEmpty) == Err(msg)
  {
  }

  /** A DB child that is not an object is refused. */
  lemma CompileRejectsDbChild(databases: map<string, Backend>, dbNode: Value, keys: seq<string>)
    requires IsObject(dbNode) && keys != [] && !IsObject(Member(dbNode, keys[0]))
    ensures CompileDatabases(databases, dbNode, keys) == Err(DB_CHILD_NOT_OBJECT)
  {
  }

  /**
   * A REST section that is not an object passes the guard (which tests the
   * DB section) and fails only when its members are listed.
   */
  lemma NonObjectRestNotGuarded(state: Compiled, document: Value, trimEmpty: bool)
    requires document.Object? && "DB" !in document.members
    requires "REST" in document.members && !IsObject(document.members["REST"])
    ensures Loadable(Ok(document), trimEmpty)
    ensures Compile(state, Ok(document), trimEmpty) == Err(MemberNames(document.members["REST"]).message)
  {
    var withDb := Touch(document, "DB");
    assert Member(withDb, "DB") == Null;
    assert Member(Touch(withDb, "REST"), "REST") == document.members["REST"];
  }

  lemma RoutableTail(keys: seq<string>, trimEmpty: bool)
    requires keys != [] && Routable(keys, trimEmpty)
    ensures Routable(keys[1..], trimEmpty)
  {
    forall i | 0 <= i < |keys[1..]| ensures Tokens(keys[1..][i], "/", trimEmpty) != [] {
      assert keys[1..][i] == keys[i + 1];
    }
  }

  /** The route table grows by one node per listed path, in order, each node carrying its path. */
  lemma {:induction false} CompileRoutesTable(trie: Trie, routes: seq<RestNode>, databases: map<string, Backend>,
                                              restNode: Value, keys: seq<string>, trimEmpty: bool)
    requires IsObject(restNode) && Routable(keys, trimEmpty)
    requires CompileRoutes(trie, routes, databases, restNode, keys, trimEmpty).Ok?
    ensures var r := CompileRoutes(trie, routes, databases, restNode, keys, trimEmpty).value;
      && |r.1| == |routes| + |keys| && r.1[..|routes|] == routes
      && forall i :: 0 <= i < |keys| ==> r.1[|routes| + i].path == keys[i]
    decreases |keys|
  {
    if keys != [] {
      var step := RouteStep(trie, routes, databases, restNode, keys[0], trimEmpty);
      assert step.Ok?;
      var next := step.value;
      RoutableTail(keys, trimEmpty);
      CompileRoutesTable(next.0, next.1, databases, restNode, keys[1..], trimEmpty);
      var r := CompileRoutes(trie, routes, databases, restNode, keys, trimEmpty).value;
      assert r == CompileRoutes(next.0, next.1, databases, restNode, keys[1..], trimEmpty).value;
      PrefixOfPrefix(r.1, |routes|, |next.1|);
      PrefixOfAppend(routes, [next.1[|routes|]]);
      forall i | 0 <= i < |keys| ensures r.1[|routes| + i].path == keys[i] {
        if i > 0 {
          assert keys[i] == keys[1..][i - 1];
          assert r.1[|routes| + i] == r.1[|next.1| + (i - 1)];
        } else {
          assert r.1[|routes|] == next.1[|routes|];
        }
      }
    }
  }

  /** A path the trie already had keeps its id. */
  lemma {:induction false} CompileRoutesKeep(trie: Trie, routes: seq<RestNode>, databases: map<string, Backend>,
                                             restNode: Value, keys: seq<string>, trimEmpty: bool, q: seq<string>)
    requires IsObject(restNode) && Routable(keys, trimEmpty)
    requires CompileRoutes(trie, routes, databases, restNode, keys, trimEmpty).Ok?
    requires HasPath(trie, q)
    ensures var t := CompileRoutes(trie, routes, databases, restNode, keys, trimEmpty).value.0;
      HasPath(t, q) && PathId(t, q) == PathId(trie, q)
    decreases |keys|
  {
    if keys != [] {
      var next := RouteStep(trie, routes, databases, restNode, keys[0], trimEmpty).value;
      InsertPath(trie, Tokens(keys[0], "/", trimEmpty), |routes|, q);
      RoutableTail(keys, trimEmpty);
      CompileRoutesKeep(next.0, next.1, databases, restNode, keys[1..], trimEmpty, q);
    }
  }

  /** The i-th listed path is routed to id routes.size() + i. */
  lemma {:induction false} CompileRoutesId(trie: Trie, routes: seq<RestNode>, databases: map<string, Backend>,
                                           restNode: Value, keys: seq<string>, trimEmpty: bool, i: nat)
    requires IsObject(restNode) && Routable(keys, trimEmpty) && i < |keys|
    requires CompileRoutes(trie, routes, databases, restNode, keys, trimEmpty).Ok?
    ensures var t := CompileRoutes(trie, routes, databases, restNode, keys, trimEmpty).value.0;
      HasPath(t, Tokens(keys[i], "/", trimEmpty)) && PathId(t, Tokens(keys[i], "/", trimEmpty)) == |routes| + i
    decreases |keys|
  {
    var toks := Tokens(keys[0], "/", trimEmpty);
    var step := RouteStep(trie, routes, databases, restNode, keys[0], trimEmpty);
    assert step.Ok?;
    var next := step.value;
    RoutableTail(keys, trimEmpty);
    assert CompileRoutes(trie, routes, databases, restNode, keys, trimEmpty)
        == CompileRoutes(next.0, next.1, databases, restNode, keys[1..], trimEmpty);
    if i == 0 {
      InsertFailsIffPresent(trie, toks, |routes|);
      InsertPath(trie, toks, |routes|, toks);
      assert HasPath(next.0, toks) && PathId(next.0, toks) == |routes|;
      CompileRoutesKeep(next.0, next.1, databases, restNode, keys[1..], trimEmpty, toks);
    } else {
      assert keys[i] == keys[1..][i - 1] && |next.1| == |routes| + 1;
      CompileRoutesId(next.0, next.1, databases, restNode, keys[1..], trimEmpty, i - 1);
    }
  }

  /**
   * Routes get the ids routes.size(), routes.size() + 1, ... in the order
   * their paths are listed, the node at that index carries the path, and
   * the routes already present keep theirs.
   */
  lemma CompileRoutesIds(trie: Trie, routes: seq<RestNode>, databases: map<string, Backend>,
                         restNode: Value, keys: seq<string>, trimEmpty: bool)
    requires IsObject(restNode) && Routable(keys, trimEmpty)
    requires CompileRoutes(trie, routes, databases, restNode, keys, trimEmpty).Ok?
    ensures var r := CompileRoutes(trie, routes, databases, restNode, keys, trimEmpty).value;
      && |r.1| == |routes| + |keys| && r.1[..|routes|] == routes
      && (forall i :: 0 <= i < |keys| ==> r.1[|routes| + i].path == keys[i])
      && (forall i :: 0 <= i < |keys| ==>
            HasPath(r.0, Tokens(keys[i], "/", trimEmpty)) && PathId(r.0, Tokens(keys[i], "/", trimEmpty)) == |routes| + i)
      && (forall q :: HasPath(trie, q) ==> HasPath(r.0, q) && PathId(r.0, q) == PathId(trie, q))
  {
    CompileRoutesTable(trie, routes, databases, restNode, keys, trimEmpty);
    forall i | 0 <= i < |keys|
      ensures var t := CompileRoutes(trie, routes, databases, restNode, keys, trimEmpty).value.0;
        HasPath(t, Tokens(keys[i], "/", trimEmpty)) && PathId(t, Tokens(keys[i], "/", trimEmpty)) == |routes| + i
    {
      CompileRoutesId(trie, routes, databases, restNode, keys, trimEmpty, i);
    }
    forall q | HasPath(trie, q)
      ensures var t := CompileRoutes(trie, routes, databases, restNode, keys, trimEmpty).value.0;
        HasPath(t, q) && PathId(t, q) == PathId(trie, q)
    {
      CompileRoutesKeep(trie, routes, databases, restNode, keys, trimEmpty, q);
    }
  }

  lemma {:induction false} IdsBelowGrow(t: Trie, n: int, m: int)
    requires IdsBelow(t, n) && n <= m
    ensures IdsBelow(t, m)
    decreases t
  {
    forall i | 0 <= i < |t.children| ensures IdsBelow(t.children[i], m) {
      IdsBelowGrow(t.children[i], n, m);
    }
  }

  // ------------------------------------------------------------------ Config

  const UNKNOWN_ROUTE: string := "Unknown route "

  /** Config::getRestNode on a compiled state: the node of the matched route, with the captures written. */
  function RouteFor(trie: Trie, routes: seq<RestNode>, path: string, pathValues: Value, trimEmpty: bool): (r: (Result<RestNode>, Value))
    requires IdsBelow(trie, |routes|) && IsObject(pathValues)
    ensures var m := Match(trie, Tokens(path, "/", trimEmpty));
      && (r.0.Err? <==> m.id == NO_ROUTE_MATCH)
      && (r.0.Err? ==> r.0.message == UNKNOWN_ROUTE + path && r.1 == pathValues)
      && (r.0.Ok? ==> 0 <= m.id < |routes| && r.0.value == routes[m.id])
      && r.1 == ApplyCaptures(pathValues, m.captures)
  {
    var m := Match(trie, Tokens(path, "/", trimEmpty));
    MatchIdBelow(trie, Tokens(path, "/", trimEmpty), |routes|);
    NoCapturesOnFailure(trie, Tokens(path, "/", trimEmpty));
    var values := ApplyCaptures(pathValues, m.captures);
    if m.id == NO_ROUTE_MATCH then (Err(UNKNOWN_ROUTE + path), values) else (Ok(routes[m.id]), values)
  }

  /** Config: the compiled configuration a configuration file describes. */
  class Config {
    /** The trimEmpty setting of every tokenize call made on route paths. */
    const trimEmpty: bool
    const router: RouteNode
    var root: Value
    var debugMode: bool
    var databases: map<string, Backend>
    var routes: seq<RestNode>

    ghost predicate Valid()
      reads this, router, router.Repr
    {
      && router.Valid() && this !in router.Repr
      && router.Tree.matchId == NO_ROUTE_MATCH && IdsBelow(router.Tree, |routes|)
    }

    ghost function State(): Compiled
      reads this, router
    {
      Compiled(root, debugMode, databases, router.Tree, routes)
    }

    constructor (trimEmpty: bool)
      ensures Valid() && fresh(router.Repr) && this.trimEmpty == trimEmpty
      ensures State() == Compiled(Null, false, map[], EMPTY, [])
    {
      this.trimEmpty := trimEmpty;
      router := new RouteNode();
      root := Null;
      debugMode := false;
      databases := map[];
      routes := [];
    }

    /** clear(): forget the document, the databases and the routes; the router keeps only its root. */
    method Clear()
      requires Valid()
      modifies this, router.Repr
      ensures Valid() && router.Repr == {router}
      ensures State() == old(State()).(root := Null, databases := map[], routes := [], trie := old(router.Tree).(children := []))
    {
      router.Clear();
      root := Null;
      databases := map[];
      routes := [];
    }

    method GetDatabase(name: string) returns (r: Result<Backend>)
      ensures r == DatabaseNamed(databases, name)
    {
      if name !in databases {
        return Err(MissingDatabase(name));
      }
      r := Ok(databases[name]);
    }

    method GetRestNode(path: string, pathValues: Value) returns (r: Result<RestNode>, values: Value)
      requires Valid() && IsObject(pathValues)
      ensures (r, values) == RouteFor(router.Tree, routes, path, pathValues, trimEmpty)
    {
      var toks := Tokenize(path, "/", trimEmpty);
      var idx;
      idx, values := router.MatchRoute(toks, pathValues);
      MatchIdBelow(router.Tree, toks, |routes|);
      if idx == NO_ROUTE_MATCH {
        return Err(UNKNOWN_ROUTE + path), values;
      }
      r := Ok(routes[idx]);
    }

    /** Config::toJson: the DB loop, then the REST loop. */
    method ToJson() returns (result: Value)
      ensures result == ConfigJson(databases, routes)
    {
      result := DatabasesToJson();
      ghost var base := result;
      DbDumpHasNoRest(databases.Keys);
      for i := 0 to |routes|
        invariant result == RestDump(base, routes[..i])
      {
        var node := NodeToJson(routes[i]);
        RestDumpStep(base, routes, i);
        result := SetMember(result, "REST", SetMember(Member(result, "REST"), routes[i].path, node));
      }
      assert routes[..|routes|] == routes;
    }

    /** The first loop of toJson, over the database names in order. */
    method DatabasesToJson() returns (result: Value)
      ensures result == DbDump(databases.Keys)
    {
      result := Null;
      var names := SortedKeys(databases);
      for i := 0 to |names|
        invariant result == DbDump(NamesIn(names[..i]))
      {
        DbDumpStep(names, i);
        result := SetMember(result, "DB", SetMember(Member(result, "DB"), names[i], String(names[i])));
      }
      assert names[..|names|] == names;
      NamesInKeys(databases);
    }

    /** The loop of loadConfig over the DB section. */
    method LoadDatabases(dbNode: Value, keys: seq<string>) returns (s: Status)
      requires IsObject(dbNode)
      modifies this
      ensures root == old(root) && debugMode == old(debugMode) && routes == old(routes)
      ensures match CompileDatabases(old(databases), dbNode, keys)
        case Ok(d) => s == Pass && databases == d
        case Err(e) => s == Fail(e)
    {
      for i := 0 to |keys|
        invariant root == old(root) && debugMode == old(debugMode) && routes == old(routes)
        invariant CompileDatabases(databases, dbNode, keys[i..]) == CompileDatabases(old(databases), dbNode, keys)
      {
        assert keys[i..][1..] == keys[i + 1..];
        var value := Member(dbNode, keys[i]);
        if !IsObject(value) {
          return Fail(DB_CHILD_NOT_OBJECT);
        }
        var backend := FactoryCreate(value);
        if backend.Err? {
          return Fail(backend.message);
        }
        databases := databases[keys[i] := backend.value];
      }
      s := Pass;
    }

    /** The first half of a pass: the path goes into the router with the id routes.size(). */
    method InsertRoute(toks: seq<string>) returns (s: Status)
      requires Valid() && toks != []
      modifies router.Repr
      ensures router.Valid() && this !in router.Repr && fresh(router.Repr - old(router.Repr))
      ensures router.Tree.matchId == NO_ROUTE_MATCH && IdsBelow(router.Tree, |routes| + 1)
      ensures match Insert(old(router.Tree), toks, |routes|)
        case Ok(t) => s == Pass && router.Tree == t
        case Err(e) => s == Fail(e)
    {
      ghost var before := router.Tree;
      InsertFailsIffPresent(before, toks, |routes|);
      IdsBelowGrow(before, |routes|, |routes| + 1);
      s := router.AddRoute(toks, |routes|);
      if s.Pass? {
        InsertKeepsRoot(before, toks, |routes|);
        InsertKeepsShape(before, toks, |routes|, |routes| + 1);
      }
    }

    /** One pass of loadConfig's loop over the REST section. */
    method LoadRoute(restNode: Value, key: string) returns (s: Status)
      requires Valid() && IsObject(restNode) && Tokens(key, "/", trimEmpty) != []
      modifies this, router.Repr
      ensures router.Valid() && this !in router.Repr && fresh(router.Repr - old(router.Repr))
      ensures root == old(root) && debugMode == old(debugMode) && databases == old(databases)
      ensures match RouteStep(old(router.Tree), old(routes), databases, restNode, key, trimEmpty)
        case Ok(c) => s == Pass && router.Tree == c.0 && routes == c.1 && Valid()
        case Err(e) => s == Fail(e)
    {
      var toks := Tokenize(key, "/", trimEmpty);
      s := InsertRoute(toks);
      if s.Fail? {
        return;
      }
      var node := CompileRestNode(databases, key, Member(restNode, key));
      if node.Err? {
        return Fail(node.message);
      }
      routes := routes + [node.value];
    }

    /** The loop of loadConfig over the REST section. */
    method LoadRoutes(restNode: Value, keys: seq<string>) returns (s: Status)
      requires Valid() && IsObject(restNode) && Routable(keys, trimEmpty)
      modifies this, router.Repr
      ensures router.Valid() && this !in router.Repr && fresh(router.Repr - old(router.Repr))
      ensures root == old(root) && debugMode == old(debugMode) && databases == old(databases)
      ensures match CompileRoutes(old(router.Tree), old(routes), databases, restNode, keys, trimEmpty)
        case Ok(c) => s == Pass && router.Tree == c.0 && routes == c.1 && Valid()
        case Err(e) => s == Fail(e)
    {
      for i := 0 to |keys|
        invariant Valid() && fresh(router.Repr - old(router.Repr))
        invariant root == old(root) && debugMode == old(debugMode) && databases == old(databases)
        invariant Routable(keys[i..], trimEmpty)
        invariant CompileRoutes(router.Tree, routes, databases, restNode, keys[i..], trimEmpty)
          == CompileRoutes(old(router.Tree), old(routes), databases, restNode, keys, trimEmpty)
      {
        assert keys[i..][1..] == keys[i + 1..];
        assert keys[i..][0] == keys[i];
        RoutableTail(keys[i..], trimEmpty);
        s := LoadRoute(restNode, keys[i]);
        if s.Fail? {
          return;
        }
      }
      s := Pass;
    }

    /** loadConfig, given the outcome of reading and parsing the file. */
    method LoadConfig(parsed: Result<Value>) returns (s: Status)
      requires Valid() && Loadable(parsed, trimEmpty)
      modifies this, router.Repr
      ensures router.Valid() && this !in router.Repr && fresh(router.Repr - old(router.Repr))
      ensures match Compile(old(State()), parsed, trimEmpty)
        case Ok(c) => s == Pass && State() == c && Valid()
        case Err(e) => s == Fail(e)
    {
      if parsed.Err? {
        return Fail(parsed.message);
      }
      if !IsObject(parsed.value) {
        return Fail(ROOT_NOT_OBJECT);
      }
      var withDb := Touch(parsed.value, "DB");
      var dbNode := Member(withDb, "DB");
      if !IsObject(dbNode) {
        return Fail(DB_NOT_OBJECT);
      }
      TouchKeepsRest(parsed.value);
      s := LoadDocument(AsBool(GetOr(parsed.value, "debug", Bool(false))), withDb);
    }

    /** loadConfig once the root and the DB section are known to be objects. */
    method LoadDocument(debug: bool, withDb: Value) returns (s: Status)
      requires Valid() && withDb.Object? && IsObject(Member(withDb, "DB")) && RoutablePaths(withDb, trimEmpty)
      modifies this, router.Repr
      ensures router.Valid() && this !in router.Repr && fresh(router.Repr - old(router.Repr))
      ensures match CompileDatabases(old(databases), Member(withDb, "DB"), MemberNames(Member(withDb, "DB")).value)
        case Ok(dbs) =>
          (match CompileRest(old(router.Tree), old(routes), withDb, debug, dbs, trimEmpty)
           case Ok(c) => s == Pass && State() == c && Valid()
           case Err(e) => s == Fail(e))
        case Err(e) => s == Fail(e)
    {
      root := withDb;
      debugMode := debug;
      var dbNode := Member(withDb, "DB");
      s := LoadDatabases(dbNode, MemberNames(dbNode).value);
      if s.Fail? {
        return;
      }
      assert router.Tree == old(router.Tree) && routes == old(routes);
      s := LoadRest();
    }

    /** The REST half of loadConfig. */
    method LoadRest() returns (s: Status)
      requires Valid() && IsObject(root) && RoutablePaths(root, trimEmpty)
      modifies this, router.Repr
      ensures router.Valid() && this !in router.Repr && fresh(router.Repr - old(router.Repr))
      ensures debugMode == old(debugMode) && databases == old(databases)
      ensures match CompileRest(old(router.Tree), old(routes), old(root), debugMode, databases, trimEmpty)
        case Ok(c) => s == Pass && State() == c && Valid()
        case Err(e) => s == Fail(e)
    {
      ghost var withDb := root;
      root := Touch(root, "REST");
      var restNode := Member(root, "REST");
      var keys := MemberNames(restNode);
      if keys.Err? {
        return Fail(keys.message);
      }
      RoutableKeys(withDb, keys.value, trimEmpty);
      s := LoadRoutes(restNode, keys.value);
    }
  }
}
