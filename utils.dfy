/**
 * Leaf utilities of the gateway: splitting a string into tokens, walking a
 * dot path through a JSON value, the text of the resulting path error, and
 * the hex-digit accumulator used by the query-string decoder.
 */
module Utils {
  import opened Errors
  import opened Json

  // ---------------------------------------------------------------- tokenize

  /** The position std::string::find_first_of reports when nothing is found. */
  const NPOS: int := -1

  /** find_first_of(delimiters, from): the first position at or after from holding a delimiter. */
  function FindFirstOf(s: string, delimiters: string, from: nat): (pos: int)
    requires from <= |s|
    ensures pos == NPOS || from <= pos < |s|
    ensures pos != NPOS ==> s[pos] in delimiters
    decreases |s| - from
  {
    if from == |s| then NPOS
    else if s[from] in delimiters then from
    else FindFirstOf(s, delimiters, from + 1)
  }

  /** Nothing before the reported position is a delimiter. */
  lemma {:induction false} FindFirstOfIsFirst(s: string, delimiters: string, from: nat)
    requires from <= |s|
    ensures var pos := FindFirstOf(s, delimiters, from);
      forall j :: from <= j < (if pos == NPOS then |s| else pos) ==> s[j] !in delimiters
    decreases |s| - from
  {
    if from < |s| && s[from] !in delimiters {
      FindFirstOfIsFirst(s, delimiters, from + 1);
    }
  }

  /** The pieces of s[from..] between delimiters, empty pieces included. */
  function Pieces(s: string, delimiters: string, from: nat): seq<string>
    requires from <= |s|
    decreases |s| - from
  {
    var pos := FindFirstOf(s, delimiters, from);
    if pos == NPOS then [s[from..]]
    else [s[from..pos]] + Pieces(s, delimiters, pos + 1)
  }

  /** The pieces that are kept: all of them, or only the non-empty ones. */
  function Keep(pieces: seq<string>, trimEmpty: bool): seq<string> {
    if pieces == [] then []
    else (if trimEmpty && pieces[0] == "" then [] else [pieces[0]]) + Keep(pieces[1..], trimEmpty)
  }

  /** What tokenize(str, delimiters, trimEmpty) returns. */
  function Tokens(s: string, delimiters: string, trimEmpty: bool): seq<string> {
    Keep(Pieces(s, delimiters, 0), trimEmpty)
  }

  lemma {:induction false} KeepAppend(a: seq<string>, b: seq<string>, trimEmpty: bool)
    ensures Keep(a + b, trimEmpty) == Keep(a, trimEmpty) + Keep(b, trimEmpty)
    decreases |a|
  {
    if a != [] {
      assert (a + b)[1..] == a[1..] + b;
      KeepAppend(a[1..], b, trimEmpty);
    } else {
      assert a + b == b;
    }
  }

  lemma KeepOne(piece: string, trimEmpty: bool)
    ensures Keep([piece], trimEmpty) == if trimEmpty && piece == "" then [] else [piece]
  {
    assert [piece][1..] == [];
  }

  /** tokenize: split str at every character of delimiters, optionally dropping empty tokens. */
  method Tokenize(str: string, delimiters: string, trimEmpty: bool) returns (tokens: seq<string>)
    ensures tokens == Tokens(str, delimiters, trimEmpty)
  {
    tokens := [];
    var lastPos: nat := 0;
    while true
      invariant lastPos <= |str|
      invariant tokens + Keep(Pieces(str, delimiters, lastPos), trimEmpty) == Tokens(str, delimiters, trimEmpty)
      decreases |str| - lastPos
    {
      var pos := FindFirstOf(str, delimiters, lastPos);
      ghost var before := tokens;
      if pos == NPOS {
        pos := |str|;
        if pos != lastPos || !trimEmpty {
          tokens := tokens + [str[lastPos..pos]];
        }
        KeptLast(str, delimiters, trimEmpty, lastPos, before, tokens, Tokens(str, delimiters, trimEmpty));
        break;
      } else {
        if pos != lastPos || !trimEmpty {
          tokens := tokens + [str[lastPos..pos]];
        }
        KeptNext(str, delimiters, trimEmpty, lastPos, pos, before, tokens, Tokens(str, delimiters, trimEmpty));
      }
      lastPos := pos + 1;
    }
  }

  /** The last piece of the loop: what it keeps completes the tokens. */
  lemma KeptLast(str: string, delimiters: string, trimEmpty: bool, lastPos: nat, before: seq<string>, after: seq<string>, all: seq<string>)
    requires lastPos <= |str| && FindFirstOf(str, delimiters, lastPos) == NPOS
    requires after == before + (if |str| != lastPos || !trimEmpty then [str[lastPos..|str|]] else [])
    requires before + Keep(Pieces(str, delimiters, lastPos), trimEmpty) == all
    ensures after == all
  {
    var piece := str[lastPos..];
    assert str[lastPos..|str|] == piece && |piece| == |str| - lastPos;
    assert Pieces(str, delimiters, lastPos) == [piece];
    KeepOne(piece, trimEmpty);
  }

  /** A piece followed by the delimiter at pos: what it keeps moves from the rest to the tokens. */
  lemma KeptNext(str: string, delimiters: string, trimEmpty: bool, lastPos: nat, pos: nat, before: seq<string>, after: seq<string>, all: seq<string>)
    requires lastPos <= pos < |str| && FindFirstOf(str, delimiters, lastPos) == pos
    requires after == before + (if pos != lastPos || !trimEmpty then [str[lastPos..pos]] else [])
    requires before + Keep(Pieces(str, delimiters, lastPos), trimEmpty) == all
    ensures after + Keep(Pieces(str, delimiters, pos + 1), trimEmpty) == all
  {
    var piece, rest := str[lastPos..pos], Pieces(str, delimiters, pos + 1);
    assert |piece| == pos - lastPos;
    var whole := [piece] + rest;
    assert Pieces(str, delimiters, lastPos) == whole;
    assert whole[0] == piece && whole[1..] == rest;
    assert Keep(whole, trimEmpty) == (if trimEmpty && piece == "" then [] else [piece]) + Keep(rest, trimEmpty);
    if trimEmpty && piece == "" {
      assert after == before;
    } else {
      assert after == before + [piece];
      AppendAssoc(before, [piece], Keep(rest, trimEmpty));
    }
  }

  /** Concatenation regroups. */
  lemma AppendAssoc<T>(a: seq<T>, b: seq<T>, c: seq<T>)
    ensures a + (b + c) == a + b + c
  {
  }

  /** The tail of a concatenation with a non-empty front. */
  lemma TailAppend<T>(a: seq<T>, b: seq<T>)
    requires a != []
    ensures (a + b)[1..] == a[1..] + b
  {
  }

  /** A prefix one longer is the prefix and the next element. */
  lemma TakeNext<T>(s: seq<T>, i: nat)
    requires i < |s|
    ensures s[..i + 1] == s[..i] + [s[i]]
  {
  }

  /** The suffix from i, cut at the element at pos. */
  lemma SplitAt<T>(s: seq<T>, i: nat, pos: nat)
    requires i <= pos < |s|
    ensures s[i..] == s[i..pos] + [s[pos]] + s[pos + 1..]
  {
  }

  /** A prefix of a prefix is a prefix. */
  lemma PrefixOfPrefix<T>(s: seq<T>, a: nat, b: nat)
    requires a <= b <= |s|
    ensures s[..b][..a] == s[..a]
  {
  }

  /** The front of a concatenation. */
  lemma PrefixOfAppend<T>(a: seq<T>, b: seq<T>)
    ensures (a + b)[..|a|] == a
  {
  }

  /** A sequence is its prefix followed by the rest. */
  lemma TakeDrop<T>(s: seq<T>, k: nat)
    requires k < |s|
    ensures s == s[..k] + s[k..] && s[k..][1..] == s[k + 1..]
  {
  }

  /** The number of characters of s that are delimiters. */
  function DelimiterCount(s: string, delimiters: string): nat {
    if s == [] then 0 else (if s[0] in delimiters then 1 else 0) + DelimiterCount(s[1..], delimiters)
  }

  lemma {:induction false} DelimiterCountAppend(a: string, b: string, delimiters: string)
    ensures DelimiterCount(a + b, delimiters) == DelimiterCount(a, delimiters) + DelimiterCount(b, delimiters)
    decreases |a|
  {
    if a == [] {
      assert a + b == b;
    } else {
      assert (a + b)[1..] == a[1..] + b;
      DelimiterCountAppend(a[1..], b, delimiters);
    }
  }

  lemma {:induction false} DelimiterFree(s: string, delimiters: string)
    requires forall j :: 0 <= j < |s| ==> s[j] !in delimiters
    ensures DelimiterCount(s, delimiters) == 0
    decreases |s|
  {
    if s != [] {
      DelimiterFree(s[1..], delimiters);
    }
  }

  lemma {:induction false} PiecesCount(s: string, delimiters: string, from: nat)
    requires from <= |s|
    ensures |Pieces(s, delimiters, from)| == DelimiterCount(s[from..], delimiters) + 1
    decreases |s| - from
  {
    var pos := FindFirstOf(s, delimiters, from);
    FindFirstOfIsFirst(s, delimiters, from);
    if pos == NPOS {
      DelimiterFreeSuffix(s, delimiters, from);
    } else {
      PiecesCount(s, delimiters, pos + 1);
      DelimiterCountAtFirst(s, delimiters, from, pos);
    }
  }

  /** A suffix without delimiters counts none. */
  lemma DelimiterFreeSuffix(s: string, delimiters: string, from: nat)
    requires from <= |s|
    requires forall j :: from <= j < |s| ==> s[j] !in delimiters
    ensures DelimiterCount(s[from..], delimiters) == 0
  {
    var rest := s[from..];
    assert forall j :: 0 <= j < |rest| ==> rest[j] == s[from + j];
    DelimiterFree(rest, delimiters);
  }

  /** Counting from a first delimiter at pos: one for it, plus those after it. */
  lemma DelimiterCountAtFirst(s: string, delimiters: string, from: nat, pos: nat)
    requires from <= pos < |s| && s[pos] in delimiters
    requires forall j :: from <= j < pos ==> s[j] !in delimiters
    ensures DelimiterCount(s[from..], delimiters) == DelimiterCount(s[pos + 1..], delimiters) + 1
  {
    var front, tail := s[from..pos], s[pos + 1..];
    assert forall j :: 0 <= j < |front| ==> front[j] == s[from + j];
    DelimiterFree(front, delimiters);
    SplitAt(s, from, pos);
    AppendAssoc(front, [s[pos]], tail);
    DelimiterCountAppend(front, [s[pos]] + tail, delimiters);
    DelimiterCountAppend([s[pos]], tail, delimiters);
    assert DelimiterCount([s[pos]], delimiters) == 1;
  }

  /** Without trimming there is one token more than there are delimiter characters. */
  lemma TokenCount(s: string, delimiters: string)
    ensures |Tokens(s, delimiters, false)| == DelimiterCount(s, delimiters) + 1
  {
    KeepAll(Pieces(s, delimiters, 0));
    PiecesCount(s, delimiters, 0);
    assert s[0..] == s;
  }

  lemma {:induction false} KeepAll(pieces: seq<string>)
    ensures Keep(pieces, false) == pieces
    decreases |pieces|
  {
    if pieces != [] {
      KeepAll(pieces[1..]);
    }
  }

  lemma {:induction false} KeepSubset(pieces: seq<string>, trimEmpty: bool)
    ensures forall t :: t in Keep(pieces, trimEmpty) ==> t in pieces && (trimEmpty ==> t != "")
    decreases |pieces|
  {
    if pieces != [] {
      KeepSubset(pieces[1..], trimEmpty);
    }
  }

  lemma {:induction false} PiecesFreeOfDelimiters(s: string, delimiters: string, from: nat)
    requires from <= |s|
    ensures forall t, c :: t in Pieces(s, delimiters, from) && c in t ==> c !in delimiters
    decreases |s| - from
  {
    var pos := FindFirstOf(s, delimiters, from);
    FindFirstOfIsFirst(s, delimiters, from);
    if pos != NPOS {
      PiecesFreeOfDelimiters(s, delimiters, pos + 1);
    }
  }

  /**
   * No token contains a delimiter, and with trimming no token is empty.
   */
  lemma TokensAreClean(s: string, delimiters: string, trimEmpty: bool)
    ensures forall t, c :: t in Tokens(s, delimiters, trimEmpty) && c in t ==> c !in delimiters
    ensures trimEmpty ==> forall t :: t in Tokens(s, delimiters, trimEmpty) ==> t != ""
  {
    KeepSubset(Pieces(s, delimiters, 0), trimEmpty);
    PiecesFreeOfDelimiters(s, delimiters, 0);
  }

  /** The tokens joined back together with a separator character. */
  function Join(tokens: seq<string>, separator: char): string
    requires |tokens| > 0
  {
    if |tokens| == 1 then tokens[0] else tokens[0] + [separator] + Join(tokens[1..], separator)
  }

  lemma {:induction false} PiecesJoin(s: string, delimiters: string, from: nat, c: char)
    requires from <= |s|
    requires forall j :: from <= j < |s| && s[j] in delimiters ==> s[j] == c
    ensures |Pieces(s, delimiters, from)| > 0 && Join(Pieces(s, delimiters, from), c) == s[from..]
    decreases |s| - from
  {
    var pos := FindFirstOf(s, delimiters, from);
    if pos != NPOS {
      PiecesJoin(s, delimiters, pos + 1, c);
      var rest := Pieces(s, delimiters, pos + 1);
      var all := [s[from..pos]] + rest;
      assert Pieces(s, delimiters, from) == all;
      TailAppend([s[from..pos]], rest);
      assert |all| > 1 && all[0] == s[from..pos] && all[1..] == rest;
      assert Join(all, c) == s[from..pos] + [c] + Join(rest, c);
      SplitAt(s, from, pos);
      assert s[pos] == c;
    } else {
      assert Join([s[from..]], c) == s[from..];
    }
  }

  /**
   * Without trimming, when every delimiter occurring in s is the character c,
   * joining the tokens with c gives s back.
   */
  lemma TokensJoin(s: string, delimiters: string, c: char)
    requires forall j :: 0 <= j < |s| && s[j] in delimiters ==> s[j] == c
    ensures |Tokens(s, delimiters, false)| > 0 && Join(Tokens(s, delimiters, false), c) == s
  {
    KeepAll(Pieces(s, delimiters, 0));
    PiecesJoin(s, delimiters, 0, c);
    assert s[0..] == s;
  }
  /** Every character of a token occurs in the joined string. */
  lemma {:induction false} JoinContains(tokens: seq<string>, separator: char, i: nat, c: char)
    requires i < |tokens| && c in tokens[i]
    ensures c in Join(tokens, separator)
    decreases |tokens|
  {
    if |tokens| > 1 {
      if i == 0 {
        assert c in tokens[0] + [separator];
      } else {
        JoinContains(tokens[1..], separator, i - 1, c);
      }
    }
  }


  /** The empty string gives one empty token, or none when trimming. */
  lemma TokensOfEmpty(delimiters: string)
    ensures Tokens("", delimiters, false) == [""]
    ensures Tokens("", delimiters, true) == []
  {
    assert Pieces("", delimiters, 0) == [""];
    KeepOne("", false);
    KeepOne("", true);
  }

  /** tokenize("foo/bar/baz", "/") is ["foo", "bar", "baz"], whatever the trimming. */
  lemma TokenizeExample(trimEmpty: bool)
    ensures Tokens("foo/bar/baz", "/", trimEmpty) == ["foo", "bar", "baz"]
  {
    var s := "foo/bar/baz";
    assert FindFirstOf(s, "/", 0) == 3;
    assert FindFirstOf(s, "/", 4) == 7;
    assert FindFirstOf(s, "/", 8) == NPOS;
    assert s[8..] == "baz" && s[4..7] == "bar" && s[0..3] == "foo";
    assert Pieces(s, "/", 8) == ["baz"];
    assert Pieces(s, "/", 4) == ["bar"] + ["baz"];
    assert Pieces(s, "/", 0) == ["foo"] + ["bar", "baz"];
    KeepAll(["foo", "bar", "baz"]);
    KeepAppend(["foo"], ["bar", "baz"], trimEmpty);
    KeepAppend(["bar"], ["baz"], trimEmpty);
    KeepOne("foo", trimEmpty);
    KeepOne("bar", trimEmpty);
    KeepOne("baz", trimEmpty);
  }

  // ------------------------------------------------------ QueryObject, what()

  /** A path error: the message, the whole path and the index of the term that failed. */
  datatype QueryException = QueryException(text: string, query: seq<string>, errterm: int)

  const NOT_AN_OBJECT: string := "Query node must be an object: "
  const NOT_FOUND: string := "Failed to find query element: "

  /** The text of one term: ".term", or ".>>term<<" for the failing one. */
  function Term(term: string, failing: bool): string {
    if failing then ".>>" + term + "<<" else "." + term
  }

  /** The terms from the front, errterm counting down to the failing one. */
  function Marked(terms: seq<string>, errterm: int): string {
    if terms == [] then "" else Term(terms[0], errterm == 0) + Marked(terms[1..], errterm - 1)
  }

  /** Every term written as ".term". */
  function Dotted(terms: seq<string>): string {
    if terms == [] then "" else "." + terms[0] + Dotted(terms[1..])
  }

  lemma {:induction false} MarkedSnoc(terms: seq<string>, term: string, errterm: int)
    ensures Marked(terms + [term], errterm) == Marked(terms, errterm) + Term(term, errterm == |terms|)
    decreases |terms|
  {
    if terms == [] {
      assert [term][1..] == [];
    } else {
      TailAppend(terms, [term]);
      MarkedSnoc(terms[1..], term, errterm - 1);
    }
  }

  /** what(): the text, then every term, the failing one set off by >> and <<. */
  method What(e: QueryException) returns (result: string)
    ensures result == e.text + Marked(e.query, e.errterm)
  {
    result := e.text;
    var i := 0;
    while i < |e.query|
      invariant 0 <= i <= |e.query|
      invariant result == e.text + Marked(e.query[..i], e.errterm)
    {
      var term := e.query[i];
      ghost var before := result;
      if i == e.errterm {
        result := result + (".>>" + term + "<<");
      } else {
        result := result + ("." + term);
      }
      assert result == before + Term(term, i == e.errterm);
      MarkedPrefix(e.query, i, e.text, e.errterm, before);
      i := i + 1;
    }
    assert e.query[..i] == e.query;
  }

  /** Writing one more term extends the message by that term. */
  lemma MarkedPrefix(query: seq<string>, i: nat, text: string, errterm: int, written: string)
    requires i < |query| && written == text + Marked(query[..i], errterm)
    ensures written + Term(query[i], i == errterm) == text + Marked(query[..i + 1], errterm)
  {
    TakeNext(query, i);
    assert |query[..i]| == i;
    MarkedSnoc(query[..i], query[i], errterm);
    AppendAssoc(text, Marked(query[..i], errterm), Term(query[i], i == errterm));
  }

  lemma {:induction false} MarkedUnmarked(terms: seq<string>, errterm: int)
    requires errterm < 0 || errterm >= |terms|
    ensures Marked(terms, errterm) == Dotted(terms)
    decreases |terms|
  {
    if terms != [] {
      MarkedUnmarked(terms[1..], errterm - 1);
      assert Term(terms[0], errterm == 0) == "." + terms[0];
    }
  }

  lemma {:induction false} DottedConcat(xs: seq<string>, ys: seq<string>)
    ensures Dotted(xs + ys) == Dotted(xs) + Dotted(ys)
    decreases |xs|
  {
    if xs == [] {
      assert xs + ys == ys;
    } else {
      TailAppend(xs, ys);
      DottedConcat(xs[1..], ys);
    }
  }

  lemma {:induction false} MarkedConcat(xs: seq<string>, ys: seq<string>, errterm: int)
    ensures Marked(xs + ys, errterm) == Marked(xs, errterm) + Marked(ys, errterm - |xs|)
    decreases |xs|
  {
    if xs == [] {
      assert xs + ys == ys;
    } else {
      TailAppend(xs, ys);
      MarkedConcat(xs[1..], ys, errterm - 1);
    }
  }

  /**
   * The message is the text followed by ".term" for each term, except that
   * the term at errterm is written ".>>term<<"; with errterm out of range no
   * term is marked.
   */
  lemma WhatMarksFailingTerm(terms: seq<string>, errterm: int)
    ensures 0 <= errterm < |terms| ==>
      Marked(terms, errterm) == Dotted(terms[..errterm]) + (".>>" + terms[errterm] + "<<") + Dotted(terms[errterm + 1..])
    ensures !(0 <= errterm < |terms|) ==> Marked(terms, errterm) == Dotted(terms)
  {
    if !(0 <= errterm < |terms|) {
      MarkedUnmarked(terms, errterm);
    } else {
      var front, rest := terms[..errterm], terms[errterm..];
      TakeDrop(terms, errterm);
      MarkedConcat(front, rest, errterm);
      MarkedUnmarked(front, errterm);
      MarkedUnmarked(rest[1..], -1);
      assert Marked(rest, 0) == Term(terms[errterm], true) + Marked(rest[1..], -1);
      var marked := ".>>" + terms[errterm] + "<<";
      assert Term(terms[errterm], true) == marked;
      assert Marked(terms, errterm) == Dotted(front) + (marked + Dotted(rest[1..]));
      AppendAssoc(Dotted(front), marked, Dotted(rest[1..]));
    }
  }

  /** The outcome of a path walk: the value reached, or the path error. */
  datatype QueryResult = Found(value: Value) | Failed(error: QueryException)

  /** The walk of QueryObject from term i on, node being the value reached so far. */
  function Resolve(node: Value, query: seq<string>, i: nat): QueryResult
    requires i <= |query|
    decreases |query| - i
  {
    if i == |query| then Found(node)
    else if !IsObject(node) then Failed(QueryException(NOT_AN_OBJECT, query, i))
    else
      var next := Member(node, query[i]);
      if next.Null? then Failed(QueryException(NOT_FOUND, query, i))
      else Resolve(next, query, i + 1)
  }

  /** QueryObject: follow the terms member by member from root. */
  method QueryObject(root: Value, query: seq<string>) returns (r: QueryResult)
    ensures r == Resolve(root, query, 0)
  {
    var i := 0;
    var node := root;
    while i < |query|
      invariant 0 <= i <= |query|
      invariant Resolve(node, query, i) == Resolve(root, query, 0)
    {
      var term := query[i];
      if !IsObject(node) {
        return Failed(QueryException(NOT_AN_OBJECT, query, i));
      }
      var next := Member(node, term);
      if next.Null? {
        return Failed(QueryException(NOT_FOUND, query, i));
      }
      node := next;
      i := i + 1;
    }
    r := Found(node);
  }

  /** QueryObject on a '.'-delimited path expression. */
  method QueryExpression(root: Value, query: string, trimEmpty: bool) returns (r: QueryResult)
    ensures r == Resolve(root, Tokens(query, ".", trimEmpty), 0)
  {
    var terms := Tokenize(query, ".", trimEmpty);
    r := QueryObject(root, terms);
  }

  /** The value reached by successive member lookups, when every step finds a non-null member of an object. */
  function Walk(root: Value, terms: seq<string>): (r: Option<Value>)
    decreases |terms|
  {
    if terms == [] then Some(root)
    else
      match Walk(root, terms[..|terms| - 1])
      case None => None
      case Some(node) =>
        if IsObject(node) && !Member(node, terms[|terms| - 1]).Null?
        then Some(Member(node, terms[|terms| - 1])) else None
  }

  /**
   * A walk succeeds exactly when every term finds a non-null member of an
   * object, and returns the value so reached.  A failed walk names the whole
   * path and the first term i that failed: the value reached after the first
   * i terms is not an object, or its member for term i is null (absent or
   * explicitly null).
   */
  lemma {:induction false} QueryObjectMeaning(root: Value, query: seq<string>)
    ensures Resolve(root, query, 0).Found? <==> Walk(root, query).Some?
    ensures Resolve(root, query, 0).Found? ==> Resolve(root, query, 0).value == Walk(root, query).value
    ensures Resolve(root, query, 0).Failed? ==>
      var e := Resolve(root, query, 0).error;
      && e.query == query && 0 <= e.errterm < |query|
      && Walk(root, query[..e.errterm]).Some?
      && var node := Walk(root, query[..e.errterm]).value;
         if !IsObject(node) then e.text == NOT_AN_OBJECT
         else e.text == NOT_FOUND && Member(node, query[e.errterm]).Null?
  {
    WalkResolve(root, query, 0);
  }

  lemma {:induction false} WalkResolve(root: Value, query: seq<string>, i: nat)
    requires i <= |query| && Walk(root, query[..i]).Some?
    ensures var r := Resolve(Walk(root, query[..i]).value, query, i);
      && (r.Found? <==> Walk(root, query).Some?)
      && (r.Found? ==> r.value == Walk(root, query).value)
      && (r.Failed? ==>
            && r.error.query == query && i <= r.error.errterm < |query|
            && Walk(root, query[..r.error.errterm]).Some?
            && var node := Walk(root, query[..r.error.errterm]).value;
               if !IsObject(node) then r.error.text == NOT_AN_OBJECT
               else r.error.text == NOT_FOUND && Member(node, query[r.error.errterm]).Null?)
    decreases |query| - i
  {
    var node := Walk(root, query[..i]).value;
    if i == |query| {
      assert query[..i] == query;
    } else {
      assert query[..i + 1][..i] == query[..i];
      if IsObject(node) && !Member(node, query[i]).Null? {
        WalkResolve(root, query, i + 1);
      } else {
        WalkStops(root, query, i + 1);
      }
    }
  }

  lemma {:induction false} WalkStops(root: Value, query: seq<string>, k: nat)
    requires 0 < k <= |query| && Walk(root, query[..k]).None?
    ensures Walk(root, query).None?
    decreases |query| - k
  {
    if k < |query| {
      assert query[..k + 1][..k] == query[..k];
      WalkStops(root, query, k + 1);
    } else {
      assert query[..k] == query;
    }
  }

  /** resolve({"a":{"b":1}}, "a.b") is 1; resolve({"a":1}, "a.b") and resolve({}, "a") fail. */
  lemma QueryObjectExamples()
    ensures Resolve(Object(map["a" := Object(map["b" := Int(1)])]), ["a", "b"], 0) == Found(Int(1))
    ensures Resolve(Object(map["a" := Int(1)]), ["a", "b"], 0) == Failed(QueryException(NOT_AN_OBJECT, ["a", "b"], 1))
    ensures Resolve(Object(map[]), ["a"], 0) == Failed(QueryException(NOT_FOUND, ["a"], 0))
    ensures Resolve(Object(map["a" := Null]), ["a"], 0) == Failed(QueryException(NOT_FOUND, ["a"], 0))
    ensures forall v :: Resolve(v, [], 0) == Found(v)
  {
  }

  // ------------------------------------------------------------- hex digits

  /** One row of 16 entries of hex_lookup holding no digit. */
  const HEX_ROW_NONE: seq<int> := [-1,-1,-1,-1, -1,-1,-1,-1, -1,-1,-1,-1, -1,-1,-1,-1]
  /** The row of '0'..'?' (codes 48..63). */
  const HEX_ROW_DIGITS: seq<int> := [0, 1, 2, 3,  4, 5, 6, 7,  8, 9,-1,-1, -1,-1,-1,-1]
  /** The rows of '@'..'O' and '`'..'o' (codes 64..79 and 96..111). */
  const HEX_ROW_LETTERS: seq<int> := [-1,10,11,12, 13,14,15,-1, -1,-1,-1,-1, -1,-1,-1,-1]

  /** hex_lookup for the ASCII characters, as its eight rows of sixteen: a digit's value, or -1. */
  const HEX_LOOKUP: seq<seq<int>> :=
    [HEX_ROW_NONE, HEX_ROW_NONE, HEX_ROW_NONE, HEX_ROW_DIGITS,
     HEX_ROW_LETTERS, HEX_ROW_NONE, HEX_ROW_LETTERS, HEX_ROW_NONE]

  /** The entry for character code k. */
  function HexEntry(k: int): int
    requires 0 <= k < 128
  {
    assert |HEX_LOOKUP| == 8 && forall r :: 0 <= r < 8 ==> |HEX_LOOKUP[r]| == 16;
    HEX_LOOKUP[k / 16][k % 16]
  }

  predicate IsHexDigit(c: char) {
    ('0' <= c <= '9') || ('A' <= c <= 'F') || ('a' <= c <= 'f')
  }

  function DigitValue(c: char): (v: int)
    requires IsHexDigit(c)
    ensures 0 <= v < 16
  {
    if '0' <= c <= '9' then c as int - '0' as int
    else if 'A' <= c <= 'F' then c as int - 'A' as int + 10
    else c as int - 'a' as int + 10
  }

  lemma HexRows(j: int)
    requires 0 <= j < 16
    ensures HEX_ROW_NONE[j] == -1
    ensures HEX_ROW_DIGITS[j] == if j < 10 then j else -1
    ensures HEX_ROW_LETTERS[j] == if 1 <= j <= 6 then j + 9 else -1
  {
    assert j == 0 || j == 1 || j == 2 || j == 3 || j == 4 || j == 5 || j == 6 || j == 7 || j == 8 || j == 9 || j == 10 || j == 11 || j == 12 || j == 13 || j == 14 || j == 15;
  }

  /** The table holds 0..15 for exactly the hex digits and -1 for every other ASCII character. */
  lemma HexLookupMeaning(c: char)
    requires c as int < 128
    ensures IsHexDigit(c) ==> HexEntry(c as int) == DigitValue(c)
    ensures !IsHexDigit(c) ==> HexEntry(c as int) == -1
  {
    var k := c as int;
    var row, col := k / 16, k % 16;
    assert k == row * 16 + col;
    HexRows(col);
    assert row == 0 || row == 1 || row == 2 || row == 3 || row == 4 || row == 5 || row == 6 || row == 7;
  }

  const INVALID_HEX: string := "Invalid character in query string hex expression"

  /**
   * ParseHex: shift one hex digit into the accumulator.  The source computes
   * (accumulator << 4) | value; as value < 16 that is accumulator * 16 + value.
   * The accumulator bound rules out the signed overflow of the shift (every
   * caller starts from 0 and shifts in two digits).
   */
  function ParseHex(ch: char, accumulator: int): (r: Result<int>)
    requires ch as int < 128
    requires 0 <= accumulator < 0x0800_0000
    ensures r.Ok? <==> IsHexDigit(ch)
    ensures r.Ok? ==> r.value == accumulator * 16 + DigitValue(ch) && 0 <= r.value < 0x8000_0000
    ensures r.Err? ==> r.message == INVALID_HEX
  {
    HexLookupMeaning(ch);
    var value := HexEntry(ch as int);
    if value == -1 then Err(INVALID_HEX)
    else Ok(accumulator * 16 + value)
  }
}
