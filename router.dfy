/**
 * The route trie.  Each REST path of the configuration is split on '/' and
 * inserted token by token; a request path is matched against it with
 * backtracking, trying literal, '*' and ':name' children in the order they
 * were added, and recording the ':name' captures on the way back up.
 *
 * The pure trie `Trie` with `Insert` and `Match` is the specification; the
 * heap structure `RouteNode` is the gateway's own mutable tree of nodes and
 * is proved to follow it.
 */
module Router {
  import opened Errors
  import opened Json

  /** The id matchRoute reports when no route fits. */
  const NO_ROUTE_MATCH: int := -1

  const ROUTE_EXISTS: string := "route already exists"

  /** A node: its path segment, the route id it answers with, and its children in insertion order. */
  datatype Trie = Trie(name: string, matchId: int, children: seq<Trie>)

  /** A ':name' segment that bound a request token. */
  datatype Capture = Capture(key: string, token: string)

  /** The id found, and the captures in the order they are written (deepest first). */
  datatype MatchResult = MatchResult(id: int, captures: seq<Capture>)

  const NO_MATCH: MatchResult := MatchResult(NO_ROUTE_MATCH, [])

  /** The root of an empty router. */
  const EMPTY: Trie := Trie("", NO_ROUTE_MATCH, [])

  // ------------------------------------------------------------- insertion

  /** The first child whose name is exactly tok, or |cs| when there is none. */
  function FindChild(cs: seq<Trie>, tok: string): (k: nat)
    ensures k <= |cs|
    ensures k < |cs| ==> cs[k].name == tok
    ensures forall j :: 0 <= j < k ==> cs[j].name != tok
    decreases |cs|
  {
    if cs == [] then 0
    else if cs[0].name == tok then 0
    else 1 + FindChild(cs[1..], tok)
  }

  /** The chain of fresh nodes an insertion creates below an existing node: every one carries id. */
  function Chain(toks: seq<string>, id: int): (r: Trie)
    requires toks != []
    ensures r.name == toks[0] && r.matchId == id
    decreases |toks|
  {
    Trie(toks[0], id, if |toks| == 1 then [] else [Chain(toks[1..], id)])
  }

  /**
   * addRoute: follow existing children named by the tokens; a path ending on
   * an existing node is a duplicate; at the first missing token append a new
   * chain of nodes, all with the route's id.
   */
  function Insert(t: Trie, toks: seq<string>, id: int): Result<Trie>
    requires toks != []
    decreases |toks|
  {
    var k := FindChild(t.children, toks[0]);
    if k < |t.children| then
      if |toks| == 1 then Err(ROUTE_EXISTS)
      else
        var c :- Insert(t.children[k], toks[1..], id);
        Ok(t.(children := t.children[k := c]))
    else
      Ok(t.(children := t.children + [Chain(toks, id)]))
  }

  /** The node path toks follows from t, child by child, exists. */
  predicate HasPath(t: Trie, toks: seq<string>)
    decreases |toks|
  {
    toks == [] ||
    var k := FindChild(t.children, toks[0]);
    k < |t.children| && HasPath(t.children[k], toks[1..])
  }

  /** The id stored at the end of that node path. */
  function PathId(t: Trie, toks: seq<string>): int
    requires HasPath(t, toks)
    decreases |toks|
  {
    if toks == [] then t.matchId
    else PathId(t.children[FindChild(t.children, toks[0])], toks[1..])
  }

  /** No two siblings anywhere share a name. */
  predicate UniqueNames(t: Trie) {
    && (forall i, j :: 0 <= i < j < |t.children| ==> t.children[i].name != t.children[j].name)
    && (forall i :: 0 <= i < |t.children| ==> UniqueNames(t.children[i]))
  }

  /** Every id in the trie is NO_ROUTE_MATCH or below n. */
  predicate IdsBelow(t: Trie, n: int) {
    && NO_ROUTE_MATCH <= t.matchId < n
    && (forall i :: 0 <= i < |t.children| ==> IdsBelow(t.children[i], n))
  }

  lemma {:induction false} ChainPath(toks: seq<string>, id: int, q: seq<string>)
    requires toks != []
    ensures HasPath(Chain(toks, id), q) <==> q <= toks[1..]
    ensures HasPath(Chain(toks, id), q) ==> PathId(Chain(toks, id), q) == id
    decreases |toks|
  {
    if q != [] && |toks| > 1 {
      ChainPath(toks[1..], id, q[1..]);
      assert q <= toks[1..] <==> q[0] == toks[1] && q[1..] <= toks[2..];
    }
  }

  lemma {:induction false} ChainShape(toks: seq<string>, id: int)
    requires toks != []
    ensures UniqueNames(Chain(toks, id))
    ensures forall n :: NO_ROUTE_MATCH <= id < n ==> IdsBelow(Chain(toks, id), n)
    decreases |toks|
  {
    if |toks| > 1 {
      ChainShape(toks[1..], id);
    }
  }

  /** An insertion keeps the name and id of the node it starts from. */
  lemma {:induction false} InsertKeepsRoot(t: Trie, toks: seq<string>, id: int)
    requires toks != [] && Insert(t, toks, id).Ok?
    ensures Insert(t, toks, id).value.name == t.name
    ensures Insert(t, toks, id).value.matchId == t.matchId
  {
  }

  /** An insertion fails, with "route already exists", exactly when the whole path is already there. */
  lemma {:induction false} InsertFailsIffPresent(t: Trie, toks: seq<string>, id: int)
    requires toks != []
    ensures Insert(t, toks, id).Err? <==> HasPath(t, toks)
    ensures Insert(t, toks, id).Err? ==> Insert(t, toks, id).message == ROUTE_EXISTS
    decreases |toks|
  {
    var k := FindChild(t.children, toks[0]);
    if k < |t.children| && |toks| > 1 {
      InsertFailsIffPresent(t.children[k], toks[1..], id);
    }
  }

  /**
   * After an insertion the paths are the old ones plus every prefix of the
   * route; the old paths keep their ids, and every new node has the route's
   * id, intermediate ones included.
   */
  lemma {:induction false} InsertPath(t: Trie, toks: seq<string>, id: int, q: seq<string>)
    requires toks != [] && Insert(t, toks, id).Ok?
    ensures var t' := Insert(t, toks, id).value;
      && (HasPath(t', q) <==> HasPath(t, q) || q <= toks)
      && (HasPath(t', q) ==> PathId(t', q) == if HasPath(t, q) then PathId(t, q) else id)
    decreases |toks|
  {
    var t' := Insert(t, toks, id).value;
    if q != [] {
      var cs := t.children;
      var k := FindChild(cs, toks[0]);
      var j := FindChild(cs, q[0]);
      assert q <= toks <==> q[0] == toks[0] && q[1..] <= toks[1..];
      if k < |cs| {
        var c := Insert(cs[k], toks[1..], id).value;
        InsertKeepsRoot(cs[k], toks[1..], id);
        assert t'.children == cs[k := c];
        SameNamesFindChild(cs, cs[k := c], q[0]);
        if j == k {
          InsertPath(cs[k], toks[1..], id, q[1..]);
        }
      } else {
        var cs' := cs + [Chain(toks, id)];
        assert t'.children == cs';
        FindChildAppend(cs, Chain(toks, id), q[0]);
        if j == |cs| && q[0] == toks[0] {
          ChainPath(toks, id, q[1..]);
        }
      }
    }
  }

  lemma {:induction false} SameNamesFindChild(cs: seq<Trie>, ds: seq<Trie>, tok: string)
    requires |cs| == |ds| && forall i :: 0 <= i < |cs| ==> cs[i].name == ds[i].name
    ensures FindChild(cs, tok) == FindChild(ds, tok)
    decreases |cs|
  {
    if cs != [] {
      SameNamesFindChild(cs[1..], ds[1..], tok);
    }
  }

  lemma {:induction false} FindChildAppend(cs: seq<Trie>, c: Trie, tok: string)
    ensures FindChild(cs + [c], tok) ==
      if FindChild(cs, tok) < |cs| then FindChild(cs, tok)
      else if c.name == tok then |cs| else |cs| + 1
    decreases |cs|
  {
    if cs == [] {
      assert [c][1..] == [];
    } else {
      assert (cs + [c])[1..] == cs[1..] + [c];
      FindChildAppend(cs[1..], c, tok);
    }
  }

  /** A route that was inserted cannot be inserted again, and every prefix of it now exists with the id the insertion gave it. */
  lemma RouteExistsAfterInsert(t: Trie, toks: seq<string>, id: int, id': int)
    requires toks != [] && Insert(t, toks, id).Ok?
    ensures Insert(Insert(t, toks, id).value, toks, id') == Err(ROUTE_EXISTS)
    ensures forall p :: p <= toks && !HasPath(t, p) ==>
      HasPath(Insert(t, toks, id).value, p) && PathId(Insert(t, toks, id).value, p) == id
  {
    InsertPath(t, toks, id, toks);
    InsertFailsIffPresent(Insert(t, toks, id).value, toks, id');
    forall p | p <= toks && !HasPath(t, p)
      ensures HasPath(Insert(t, toks, id).value, p) && PathId(Insert(t, toks, id).value, p) == id
    {
      InsertPath(t, toks, id, p);
    }
  }

  /** Siblings keep distinct names, and ids stay in range. */
  lemma {:induction false} InsertKeepsShape(t: Trie, toks: seq<string>, id: int, n: int)
    requires toks != [] && Insert(t, toks, id).Ok?
    ensures UniqueNames(t) ==> UniqueNames(Insert(t, toks, id).value)
    ensures IdsBelow(t, n) && NO_ROUTE_MATCH <= id < n ==> IdsBelow(Insert(t, toks, id).value, n)
    decreases |toks|
  {
    var t' := Insert(t, toks, id).value;
    var cs := t.children;
    var k := FindChild(cs, toks[0]);
    if k < |cs| {
      InsertKeepsShape(cs[k], toks[1..], id, n);
      InsertKeepsRoot(cs[k], toks[1..], id);
      assert t'.children == cs[k := Insert(cs[k], toks[1..], id).value];
    } else {
      ChainShape(toks, id);
      assert t'.children == cs + [Chain(toks, id)];
    }
  }

  // --------------------------------------------------------------- matching

  /** A child is tried for a token when it captures (':name'), is the wildcard '*', or names the token exactly. */
  predicate Admits(name: string, tok: string) {
    (|name| > 0 && name[0] == ':') || name == "*" || name == tok
  }

  predicate IsNamed(name: string) {
    |name| > 0 && name[0] == ':'
  }

  /** Add the capture of a ':name' child to a match found below it. */
  function Tagged(c: Trie, tok: string, m: MatchResult): MatchResult {
    if IsNamed(c.name) then MatchResult(m.id, m.captures + [Capture(c.name[1..], tok)]) else m
  }

  /** matchRoute: with tokens exhausted, this node's id; otherwise the first child that leads to an id. */
  function Match(t: Trie, toks: seq<string>): MatchResult
    decreases |toks|, 1
  {
    if toks == [] then MatchResult(t.matchId, [])
    else MatchFrom(t.children, toks, 0)
  }

  /** The loop over the children from index i on. */
  function MatchFrom(cs: seq<Trie>, toks: seq<string>, i: nat): MatchResult
    requires toks != [] && i <= |cs|
    decreases |toks|, 0, |cs| - i
  {
    if i == |cs| then NO_MATCH
    else if !Admits(cs[i].name, toks[0]) then MatchFrom(cs, toks, i + 1)
    else
      var m := Match(cs[i], toks[1..]);
      if m.id != NO_ROUTE_MATCH then Tagged(cs[i], toks[0], m)
      else MatchFrom(cs, toks, i + 1)
  }

  /**
   * The reference: every end node a request path fits, in trie order
   * (children in insertion order, depth first), each with the captures its
   * path binds.
   */
  function Candidates(t: Trie, toks: seq<string>): seq<MatchResult>
    decreases |toks|, 1
  {
    if toks == [] then [MatchResult(t.matchId, [])]
    else CandidatesFrom(t.children, toks, 0)
  }

  function CandidatesFrom(cs: seq<Trie>, toks: seq<string>, i: nat): seq<MatchResult>
    requires toks != [] && i <= |cs|
    decreases |toks|, 0, |cs| - i
  {
    if i == |cs| then []
    else
      var here := if Admits(cs[i].name, toks[0]) then TagAll(cs[i], toks[0], Candidates(cs[i], toks[1..])) else [];
      here + CandidatesFrom(cs, toks, i + 1)
  }

  function TagAll(c: Trie, tok: string, ms: seq<MatchResult>): (r: seq<MatchResult>)
    ensures |r| == |ms| && forall i :: 0 <= i < |ms| ==> r[i] == Tagged(c, tok, ms[i])
  {
    seq(|ms|, i requires 0 <= i < |ms| => Tagged(c, tok, ms[i]))
  }

  /** The first candidate with an id, or no match. */
  function FirstHit(ms: seq<MatchResult>): MatchResult {
    if ms == [] then NO_MATCH
    else if ms[0].id != NO_ROUTE_MATCH then ms[0]
    else FirstHit(ms[1..])
  }

  lemma {:induction false} FirstHitAppend(a: seq<MatchResult>, b: seq<MatchResult>)
    ensures FirstHit(a + b) == if FirstHit(a).id != NO_ROUTE_MATCH then FirstHit(a) else FirstHit(b)
    decreases |a|
  {
    if a == [] {
      assert a + b == b;
    } else {
      assert (a + b)[1..] == a[1..] + b;
      FirstHitAppend(a[1..], b);
    }
  }

  lemma {:induction false} FirstHitTagAll(c: Trie, tok: string, ms: seq<MatchResult>)
    ensures FirstHit(TagAll(c, tok, ms)) ==
      if FirstHit(ms).id != NO_ROUTE_MATCH then Tagged(c, tok, FirstHit(ms)) else NO_MATCH
    decreases |ms|
  {
    if ms != [] {
      assert TagAll(c, tok, ms)[1..] == TagAll(c, tok, ms[1..]);
      FirstHitTagAll(c, tok, ms[1..]);
    }
  }

  lemma {:induction false} FirstHitMeaning(ms: seq<MatchResult>)
    ensures FirstHit(ms).id != NO_ROUTE_MATCH <==> exists i :: 0 <= i < |ms| && ms[i].id != NO_ROUTE_MATCH
    ensures FirstHit(ms).id != NO_ROUTE_MATCH ==>
      exists i :: 0 <= i < |ms| && ms[i] == FirstHit(ms) && forall j :: 0 <= j < i ==> ms[j].id == NO_ROUTE_MATCH
    ensures FirstHit(ms).id == NO_ROUTE_MATCH ==> FirstHit(ms) == NO_MATCH
    decreases |ms|
  {
    if ms != [] && ms[0].id == NO_ROUTE_MATCH {
      FirstHitMeaning(ms[1..]);
      if FirstHit(ms).id != NO_ROUTE_MATCH {
        var i :| 0 <= i < |ms[1..]| && ms[1..][i] == FirstHit(ms[1..]) && forall j :: 0 <= j < i ==> ms[1..][j].id == NO_ROUTE_MATCH;
        assert ms[i + 1] == FirstHit(ms);
        assert forall j :: 0 <= j < i + 1 ==> ms[j].id == NO_ROUTE_MATCH by {
          forall j | 0 <= j < i + 1 ensures ms[j].id == NO_ROUTE_MATCH {
            if j > 0 { assert ms[j] == ms[1..][j - 1]; }
          }
        }
      } else {
        forall i | 0 <= i < |ms| ensures ms[i].id == NO_ROUTE_MATCH {
          if i > 0 { assert ms[i] == ms[1..][i - 1]; }
        }
      }
    }
  }

  /**
   * Backtracking: matchRoute returns the first candidate, in trie order,
   * whose node carries an id, together with that candidate's captures.
   */
  lemma {:induction false} MatchIsFirstCandidate(t: Trie, toks: seq<string>)
    ensures Match(t, toks) == FirstHit(Candidates(t, toks))
    decreases |toks|, 1
  {
    if toks != [] {
      MatchFromIsFirstCandidate(t.children, toks, 0);
    }
  }

  lemma {:induction false} MatchFromIsFirstCandidate(cs: seq<Trie>, toks: seq<string>, i: nat)
    requires toks != [] && i <= |cs|
    ensures MatchFrom(cs, toks, i) == FirstHit(CandidatesFrom(cs, toks, i))
    decreases |toks|, 0, |cs| - i
  {
    if i < |cs| {
      var here := if Admits(cs[i].name, toks[0]) then TagAll(cs[i], toks[0], Candidates(cs[i], toks[1..])) else [];
      FirstHitAppend(here, CandidatesFrom(cs, toks, i + 1));
      MatchFromIsFirstCandidate(cs, toks, i + 1);
      if Admits(cs[i].name, toks[0]) {
        MatchIsFirstCandidate(cs[i], toks[1..]);
        FirstHitTagAll(cs[i], toks[0], Candidates(cs[i], toks[1..]));
      }
    }
  }

  /**
   * A match is found exactly when some candidate carries an id; it is that
   * first candidate; and a failed match has no captures.
   */
  lemma MatchMeaning(t: Trie, toks: seq<string>)
    ensures var ms := Candidates(t, toks);
      && (Match(t, toks).id != NO_ROUTE_MATCH <==> exists i :: 0 <= i < |ms| && ms[i].id != NO_ROUTE_MATCH)
      && (Match(t, toks).id != NO_ROUTE_MATCH ==>
            exists i :: 0 <= i < |ms| && ms[i] == Match(t, toks) && forall j :: 0 <= j < i ==> ms[j].id == NO_ROUTE_MATCH)
      && (Match(t, toks).id == NO_ROUTE_MATCH ==> Match(t, toks) == NO_MATCH)
  {
    MatchIsFirstCandidate(t, toks);
    FirstHitMeaning(Candidates(t, toks));
  }

  /** A failed match records no capture. */
  lemma {:induction false} NoCapturesOnFailure(t: Trie, toks: seq<string>)
    ensures Match(t, toks).id == NO_ROUTE_MATCH ==> Match(t, toks).captures == []
  {
    MatchIsFirstCandidate(t, toks);
    FirstHitMeaning(Candidates(t, toks));
  }

  /** Exhausted tokens give the node's own id; on the root of an empty router that is NO_ROUTE_MATCH. */
  lemma MatchExhausted(t: Trie)
    ensures Match(t, []) == MatchResult(t.matchId, [])
    ensures forall toks :: Match(EMPTY, toks) == NO_MATCH
  {
  }

  /** The id found is NO_ROUTE_MATCH or one stored in the trie, so below any bound on those. */
  lemma {:induction false} MatchIdBelow(t: Trie, toks: seq<string>, n: int)
    requires IdsBelow(t, n)
    ensures NO_ROUTE_MATCH <= Match(t, toks).id < n
    decreases |toks|, 1
  {
    if toks != [] {
      MatchFromIdBelow(t.children, toks, 0, n);
    }
  }

  lemma {:induction false} MatchFromIdBelow(cs: seq<Trie>, toks: seq<string>, i: nat, n: int)
    requires toks != [] && i <= |cs|
    requires NO_ROUTE_MATCH < n && forall j :: 0 <= j < |cs| ==> IdsBelow(cs[j], n)
    ensures NO_ROUTE_MATCH <= MatchFrom(cs, toks, i).id < n
    decreases |toks|, 0, |cs| - i
  {
    if i < |cs| {
      MatchFromIdBelow(cs, toks, i + 1, n);
      if Admits(cs[i].name, toks[0]) {
        MatchIdBelow(cs[i], toks[1..], n);
        var m := Match(cs[i], toks[1..]);
        assert Tagged(cs[i], toks[0], m).id == m.id;
      }
    }
  }

  // -------------------------------------------------------------- captures

  /** Write the captures into pathValues, in order. */
  function ApplyCaptures(pathValues: Value, caps: seq<Capture>): (r: Value)
    requires IsObject(pathValues)
    ensures IsObject(r)
    decreases |caps|
  {
    if caps == [] then pathValues
    else ApplyCaptures(SetMember(pathValues, caps[0].key, String(caps[0].token)), caps[1..])
  }

  lemma {:induction false} ApplyCapturesSnoc(pathValues: Value, caps: seq<Capture>, c: Capture)
    requires IsObject(pathValues)
    ensures ApplyCaptures(pathValues, caps + [c]) == SetMember(ApplyCaptures(pathValues, caps), c.key, String(c.token))
    decreases |caps|
  {
    if caps == [] {
      assert [c][1..] == [];
    } else {
      assert (caps + [c])[1..] == caps[1..] + [c];
      ApplyCapturesSnoc(SetMember(pathValues, caps[0].key, String(caps[0].token)), caps[1..], c);
    }
  }

  /** A key no capture names keeps its old value. */
  lemma {:induction false} ApplyCapturesOthers(pathValues: Value, caps: seq<Capture>, key: string)
    requires IsObject(pathValues)
    requires forall i :: 0 <= i < |caps| ==> caps[i].key != key
    ensures Member(ApplyCaptures(pathValues, caps), key) == Member(pathValues, key)
    decreases |caps|
  {
    if caps != [] {
      var p' := SetMember(pathValues, caps[0].key, String(caps[0].token));
      assert Member(p', key) == Member(pathValues, key);
      ApplyCapturesOthers(p', caps[1..], key);
    }
  }

  /**
   * After the captures are written, a key holds the token of its last
   * capture (the shallowest segment wins).
   */
  lemma {:induction false} ApplyCapturesLastWins(pathValues: Value, caps: seq<Capture>, i: nat)
    requires IsObject(pathValues) && i < |caps|
    requires forall j :: i < j < |caps| ==> caps[j].key != caps[i].key
    ensures Member(ApplyCaptures(pathValues, caps), caps[i].key) == String(caps[i].token)
    decreases |caps|
  {
    var p' := SetMember(pathValues, caps[0].key, String(caps[0].token));
    if i == 0 {
      ApplyCapturesOthers(p', caps[1..], caps[0].key);
    } else {
      ApplyCapturesLastWins(p', caps[1..], i - 1);
    }
  }

  // ---------------------------------------------------- the unit test, as a spec

  // The tries of the router test after each of its three insertions.
  const BAZ_1: Trie := Trie("baz", 42, [])
  const BAR_1: Trie := Trie("bar", 42, [BAZ_1])
  const FOO_1: Trie := Trie("foo", 42, [BAR_1])
  const STAR_2: Trie := Trie("*", 13, [Trie("gorf", 13, [])])
  const FOO_2: Trie := Trie("foo", 42, [BAR_1, STAR_2])
  const GORF_3: Trie := Trie(":gorf", 29, [])
  const BAZ_3: Trie := Trie("baz", 42, [GORF_3])
  const BAR_3: Trie := Trie("bar", 42, [BAZ_3])
  const FOO_3: Trie := Trie("foo", 42, [BAR_3, STAR_2])
  /** The whole router after each of the three routes. */
  const ROUTER_1: Trie := Trie("", -1, [FOO_1])
  const ROUTER_2: Trie := Trie("", -1, [FOO_2])
  const ROUTER_3: Trie := Trie("", -1, [FOO_3])

  /** foo/bar/baz = 42 on an empty router: a fresh chain, every node with id 42. */
  lemma ExampleFirstRoute()
    ensures Insert(EMPTY, ["foo", "bar", "baz"], 42) == Ok(ROUTER_1)
  {
    assert ["foo", "bar", "baz"][1..] == ["bar", "baz"];
    assert ["bar", "baz"][1..] == ["baz"];
    assert Chain(["baz"], 42) == BAZ_1;
    assert Chain(["bar", "baz"], 42) == BAR_1;
    assert Chain(["foo", "bar", "baz"], 42) == FOO_1;
    assert FindChild(EMPTY.children, "foo") == 0;
    assert EMPTY.children + [FOO_1] == [FOO_1];
  }

  /** foo/ * /gorf = 13: through foo, then a fresh chain. */
  lemma ExampleSecondRoute()
    ensures Insert(ROUTER_1, ["foo", "*", "gorf"], 13) == Ok(ROUTER_2)
  {
    assert ["foo", "*", "gorf"][1..] == ["*", "gorf"];
    assert ["*", "gorf"][1..] == ["gorf"];
    assert Chain(["*", "gorf"], 13) == STAR_2;
    assert FindChild([BAR_1], "*") == 1;
    assert FOO_1.children + [STAR_2] == [BAR_1, STAR_2];
    assert Insert(FOO_1, ["*", "gorf"], 13) == Ok(FOO_2);
    assert FindChild([FOO_1], "foo") == 0;
    assert [FOO_1][0 := FOO_2] == [FOO_2];
  }

  /** foo/bar/baz/:gorf = 29: through foo, bar and baz, then a fresh :gorf. */
  lemma ExampleThirdRoute()
    ensures Insert(ROUTER_2, ["foo", "bar", "baz", ":gorf"], 29) == Ok(ROUTER_3)
  {
    assert ["foo", "bar", "baz", ":gorf"][1..] == ["bar", "baz", ":gorf"];
    assert ["bar", "baz", ":gorf"][1..] == ["baz", ":gorf"];
    assert ["baz", ":gorf"][1..] == [":gorf"];
    assert Chain([":gorf"], 29) == GORF_3;
    assert FindChild([], ":gorf") == 0;
    assert BAZ_1.children + [GORF_3] == [GORF_3];
    assert Insert(BAZ_1, [":gorf"], 29) == Ok(BAZ_3);
    assert FindChild([BAZ_1], "baz") == 0;
    assert BAR_1.children[0 := BAZ_3] == [BAZ_3];
    assert Insert(BAR_1, ["baz", ":gorf"], 29) == Ok(BAR_3);
    assert FindChild([BAR_1, STAR_2], "bar") == 0;
    assert FOO_2.children[0 := BAR_3] == [BAR_3, STAR_2];
    assert Insert(FOO_2, ["bar", "baz", ":gorf"], 29) == Ok(FOO_3);
    assert FindChild([FOO_2], "foo") == 0;
    assert [FOO_2][0 := FOO_3] == [FOO_3];
  }

  /** Inserting foo/bar/baz again fails: that path now exists. */
  lemma ExampleDuplicate()
    ensures Insert(ROUTER_3, ["foo", "bar", "baz"], 42) == Err(ROUTE_EXISTS)
  {
    assert ["foo", "bar", "baz"][1..] == ["bar", "baz"];
    assert ["bar", "baz"][1..] == ["baz"];
    assert HasPath(ROUTER_3, ["foo", "bar", "baz"]);
    InsertFailsIffPresent(ROUTER_3, ["foo", "bar", "baz"], 42);
  }

  /** The three lookups of the router test on the final trie. */
  lemma ExampleMatches()
    ensures Match(ROUTER_3, ["x", "y", "z"]) == NO_MATCH
    ensures Match(ROUTER_3, ["foo", "bar", "baz"]) == MatchResult(42, [])
    ensures Match(ROUTER_3, ["foo", "bar", "baz", "goat"]) == MatchResult(29, [Capture("gorf", "goat")])
  {
    // x/y/z: no child of the root admits x
    assert MatchFrom([FOO_3], ["x", "y", "z"], 1) == NO_MATCH;
    // foo/bar/baz: the literal chain ends on baz, whose id is 42
    assert ["foo", "bar", "baz"][1..] == ["bar", "baz"];
    assert ["bar", "baz"][1..] == ["baz"];
    assert Match(BAZ_3, []) == MatchResult(42, []);
    assert MatchFrom([BAZ_3], ["baz"], 0) == MatchResult(42, []);
    assert MatchFrom([BAR_3, STAR_2], ["bar", "baz"], 0) == MatchResult(42, []);
    assert MatchFrom([FOO_3], ["foo", "bar", "baz"], 0) == MatchResult(42, []);
    // foo/bar/baz/goat: :gorf captures goat
    var cap := MatchResult(29, [Capture("gorf", "goat")]);
    assert ["foo", "bar", "baz", "goat"][1..] == ["bar", "baz", "goat"];
    assert ["bar", "baz", "goat"][1..] == ["baz", "goat"];
    assert ["baz", "goat"][1..] == ["goat"];
    assert ":gorf"[1..] == "gorf";
    assert Match(GORF_3, []) == MatchResult(29, []);
    assert MatchFrom([GORF_3], ["goat"], 0) == cap;
    assert MatchFrom([BAZ_3], ["baz", "goat"], 0) == cap;
    assert MatchFrom([BAR_3, STAR_2], ["bar", "baz", "goat"], 0) == cap;
    assert MatchFrom([FOO_3], ["foo", "bar", "baz", "goat"], 0) == cap;
  }

  /**
   * The router test: insert foo/bar/baz = 42, foo/ * /gorf = 13 and
   * foo/bar/baz/:gorf = 29; inserting foo/bar/baz again fails; then x/y/z
   * finds nothing, foo/bar/baz finds 42 with no captures, and
   * foo/bar/baz/goat finds 29 with gorf = goat.
   */
  lemma RouterExample()
    ensures var t1 := Insert(EMPTY, ["foo", "bar", "baz"], 42);
      && t1.Ok?
      && var t2 := Insert(t1.value, ["foo", "*", "gorf"], 13);
      && t2.Ok?
      && var t3 := Insert(t2.value, ["foo", "bar", "baz", ":gorf"], 29);
      && t3.Ok?
      && Insert(t3.value, ["foo", "bar", "baz"], 42) == Err(ROUTE_EXISTS)
      && Match(t3.value, ["x", "y", "z"]) == NO_MATCH
      && Match(t3.value, ["foo", "bar", "baz"]) == MatchResult(42, [])
      && Match(t3.value, ["foo", "bar", "baz", "goat"]) == MatchResult(29, [Capture("gorf", "goat")])
  {
    ExampleFirstRoute();
    ExampleSecondRoute();
    ExampleThirdRoute();
    ExampleDuplicate();
    ExampleMatches();
  }

  // ------------------------------------------------------- the heap structure

  /** RouteNode: a node of the router, owning its children. */
  class RouteNode {
    var matchId: int
    var name: string
    var children: seq<RouteNode>

    /** The objects this node and its descendants consist of. */
    ghost var Repr: set<object>
    /** The trie this node represents. */
    ghost var Tree: Trie

    ghost predicate Valid()
      reads this, Repr
      decreases Repr
    {
      && this in Repr
      && Tree.name == name && Tree.matchId == matchId
      && |Tree.children| == |children|
      && (forall i :: 0 <= i < |children| ==>
            && children[i] in Repr && children[i].Repr <= Repr && this !in children[i].Repr
            && children[i].Valid() && children[i].Tree == Tree.children[i])
      && (forall i, j :: 0 <= i < j < |children| ==> children[i].Repr !! children[j].Repr)
    }

    /** A node with no name, no children and no route. */
    constructor ()
      ensures Valid() && fresh(Repr)
      ensures Tree == EMPTY
    {
      matchId := NO_ROUTE_MATCH;
      name := "";
      children := [];
      Repr := {this};
      Tree := EMPTY;
    }

    /** clear(): drop every child; the name and id stay. */
    method Clear()
      requires Valid()
      modifies Repr
      ensures Valid() && Repr == {this}
      ensures Tree == old(Tree).(children := [])
    {
      children := [];
      Repr := {this};
      Tree := Tree.(children := []);
    }

    /** addRoute: insert a route of one or more tokens; a duplicate leaves the router unchanged. */
    method AddRoute(toks: seq<string>, id: int) returns (s: Status)
      requires Valid() && toks != []
      modifies Repr
      ensures Valid() && fresh(Repr - old(Repr)) && old(Repr) <= Repr
      ensures Insert(old(Tree), toks, id).Ok? ==> s == Pass && Tree == Insert(old(Tree), toks, id).value
      ensures Insert(old(Tree), toks, id).Err? ==> s == Fail(ROUTE_EXISTS) && Tree == old(Tree)
      decreases |toks|, 2
    {
      var tok := toks[0];
      var next := toks[1..];
      var i := 0;
      while i < |children|
        invariant 0 <= i <= |children|
        invariant forall j :: 0 <= j < i ==> children[j].name != tok
      {
        var child := children[i];
        if child.name == tok {
          assert FindChild(Tree.children, tok) == i;
          if next == [] {
            return Fail(ROUTE_EXISTS);
          }
          s := Descend(i, next, id);
          return;
        }
        i := i + 1;
      }
      assert FindChild(Tree.children, tok) == |children|;
      s := Extend(toks, id);
    }

    /** The recursive call on child i, which carries the rest of the route. */
    method Descend(i: nat, next: seq<string>, id: int) returns (s: Status)
      requires Valid() && i < |children| && next != []
      modifies Repr
      ensures Valid() && fresh(Repr - old(Repr)) && old(Repr) <= Repr
      ensures Insert(old(Tree).children[i], next, id).Ok? ==>
        s == Pass && Tree == old(Tree).(children := old(Tree).children[i := Insert(old(Tree).children[i], next, id).value])
      ensures Insert(old(Tree).children[i], next, id).Err? ==> s == Fail(ROUTE_EXISTS) && Tree == old(Tree)
      decreases |next|, 3
    {
      var child := children[i];
      s := child.AddRoute(next, id);
      InsertFailsIffPresent(old(Tree).children[i], next, id);
      Repr := Repr + child.Repr;
      Tree := Tree.(children := Tree.children[i := child.Tree]);
      assert Valid() by {
        forall j | 0 <= j < |children| && j != i
          ensures children[j].Valid() && children[j].Repr !! child.Repr && this !in children[j].Repr
        {
        }
      }
    }

    /** No child has the first token's name: append a new node for it, with the rest of the route below it. */
    method Extend(toks: seq<string>, id: int) returns (s: Status)
      requires Valid() && toks != []
      modifies Repr
      ensures Valid() && fresh(Repr - old(Repr)) && old(Repr) <= Repr
      ensures s == Pass && Tree == old(Tree).(children := old(Tree).children + [Chain(toks, id)])
      decreases |toks|, 1
    {
      var node := NewNode(toks, id);
      children := children + [node];
      Repr := Repr + node.Repr;
      Tree := Tree.(children := Tree.children + [node.Tree]);
      s := Pass;
      assert Valid() by {
        var k := |children| - 1;
        forall j | 0 <= j < k
          ensures children[j].Valid() && children[j].Repr !! node.Repr && this !in children[j].Repr
        {
          assert children[j] == old(children)[j];
        }
      }
    }

    /** A new node named by the first token, carrying id, and the rest of the route added below it. */
    static method NewNode(toks: seq<string>, id: int) returns (node: RouteNode)
      requires toks != []
      ensures node.Valid() && fresh(node.Repr)
      ensures node.Tree == Chain(toks, id)
      decreases |toks|, 0
    {
      node := new RouteNode();
      node.name := toks[0];
      node.matchId := id;
      node.Tree := Trie(toks[0], id, []);
      var next := toks[1..];
      if next != [] {
        var s := node.AddRoute(next, id);
      }
    }

    /**
     * matchRoute: the id of the route the tokens lead to, with pathValues
     * extended by the captures of the successful path only.
     */
    method MatchRoute(toks: seq<string>, pathValues: Value) returns (result: int, values: Value)
      requires Valid() && IsObject(pathValues)
      ensures result == Match(Tree, toks).id
      ensures values == ApplyCaptures(pathValues, Match(Tree, toks).captures)
      decreases |toks|
    {
      if toks == [] {
        return matchId, pathValues;
      }
      var tok := toks[0];
      var next := toks[1..];
      values := pathValues;
      var i := 0;
      while i < |children|
        invariant 0 <= i <= |children|
        invariant values == pathValues
        invariant MatchFrom(Tree.children, toks, i) == Match(Tree, toks)
      {
        var child := children[i];
        var isNamed := false;
        if |child.name| > 0 && child.name[0] == ':' {
          isNamed := true;
        } else if child.name != "*" && child.name != tok {
          i := i + 1;
          continue;
        }
        result, values := child.MatchRoute(next, values);
        NoCapturesOnFailure(child.Tree, next);
        if result != NO_ROUTE_MATCH {
          if isNamed {
            ApplyCapturesSnoc(pathValues, Match(child.Tree, next).captures, Capture(child.name[1..], tok));
            values := SetMember(values, child.name[1..], String(tok));
          }
          return;
        }
        i := i + 1;
      }
      result := NO_ROUTE_MATCH;
    }
  }

  /** The router unit test's first route. */
  method BuildFirstRoute() returns (root: RouteNode)
    ensures root.Valid() && fresh(root.Repr) && root.Tree == ROUTER_1
  {
    root := new RouteNode();
    ExampleFirstRoute();
    var s := root.AddRoute(["foo", "bar", "baz"], 42);
  }

  /** The router unit test's first two routes. */
  method BuildTwoRoutes() returns (root: RouteNode)
    ensures root.Valid() && fresh(root.Repr) && root.Tree == ROUTER_2
  {
    root := BuildFirstRoute();
    ExampleSecondRoute();
    var s := root.AddRoute(["foo", "*", "gorf"], 13);
  }

  /** The router unit test's trie: three routes, then a rejected duplicate. */
  method BuildTestRouter() returns (root: RouteNode, duplicate: Status)
    ensures root.Valid() && root.Tree == ROUTER_3
    ensures duplicate == Fail(ROUTE_EXISTS)
  {
    root := BuildTwoRoutes();
    ExampleThirdRoute();
    var s := root.AddRoute(["foo", "bar", "baz", ":gorf"], 29);
    assert root.Tree == ROUTER_3;
    ExampleDuplicate();
    duplicate := root.AddRoute(["foo", "bar", "baz"], 42);
  }

  /**
   * The router unit test, driven through the heap structure: the trie of
   * BuildTestRouter, and the three lookups with a fresh null pathValues
   * each time.
   */
  method RouterUnitTest() returns (duplicate: Status, none: int, plain: int, captured: int, values: Value)
    ensures duplicate == Fail(ROUTE_EXISTS)
    ensures none == NO_ROUTE_MATCH && plain == 42 && captured == 29
    ensures values == Object(map["gorf" := String("goat")])
  {
    var root;
    root, duplicate := BuildTestRouter();
    ExampleMatches();
    var ignored;
    none, ignored := root.MatchRoute(["x", "y", "z"], Null);
    plain, ignored := root.MatchRoute(["foo", "bar", "baz"], Null);
    captured, values := root.MatchRoute(["foo", "bar", "baz", "goat"], Null);
    assert [Capture("gorf", "goat")][1..] == [];
  }
}
