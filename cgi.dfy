/**
 * The query-string decoder: a two-state machine over the characters of the
 * query (up to its terminating NUL) that builds a JSON object of key/value
 * pairs, decoding '+' to a space and '%XY' to one byte on the way.
 *
 * `Run` is the machine as the decoder executes it; `Reference` is an
 * independent description by splitting on '&' and '='; the two are proved
 * equal.  `ParseQueryString` is the loop itself, proved against `Run`.
 */
module Cgi {
  import opened Errors
  import opened Json
  import opened Utils

  /** The status headers the gateway writes before a response body. */
  const STATUS_200: string := "Status: 200 OK\r\nContent-type: application/json\r\n\r\n"
  const STATUS_400: string := "Status: 400 Bad Request\r\nContent-type: application/json\r\n\r\n"

  /** The character at p of a NUL-terminated buffer holding q: past the end it is the terminator. */
  function At(q: string, p: int): char {
    if 0 <= p < |q| then q[p] else '\0'
  }

  /** KEY: no '=' seen since the last '&'; VALUE: one was. */
  datatype Mode = InKey | InValue

  /** The machine's variables: its state, the key and value buffers, and the object built so far. */
  datatype Scanner = Scanner(state: Mode, key: string, value: string, result: map<string, Value>)

  const START: Scanner := Scanner(InKey, "", "", map[])

  /**
   * The character at p as the hex table sees it.  The table lists the 128
   * ASCII characters; any other character after '%' stands here for the
   * terminator, which is no hex digit, so the escape is refused.
   */
  function HexAt(q: string, p: int): (c: char)
    ensures c as int < 128
  {
    if At(q, p) as int < 128 then At(q, p) else '\0'
  }

  /** One pass of the loop body: how many characters it reads, and the variables after it. */
  datatype Move = Move(width: nat, next: Scanner)

  /** The loop body at a character that is not the terminator. */
  function Step(rest: string, st: Scanner): (r: Result<Move>)
    requires At(rest, 0) != '\0'
    ensures r.Ok? ==> 1 <= r.value.width <= |rest|
    ensures r.Err? ==> r.message == INVALID_HEX
  {
    if rest[0] == '=' then Ok(Move(1, Scanner(InValue, st.value, "", st.result)))
    else if rest[0] == '&' then Ok(Move(1, Scanner(InKey, "", "", Pair(st.result, st.key, st.value))))
    else if rest[0] == '%' then
      var hi :- ParseHex(HexAt(rest, 1), 0);
      var byte :- ParseHex(HexAt(rest, 2), hi);
      Ok(Move(3, st.(value := st.value + [byte as char])))
    else if rest[0] == '+' then Ok(Move(1, st.(value := st.value + " ")))
    else Ok(Move(1, st.(value := st.value + [rest[0]])))
  }

  /** The character loop, on the text still to be read. */
  function Run(rest: string, st: Scanner): (r: Result<Scanner>)
    ensures r.Err? ==> r.message == INVALID_HEX
    decreases |rest|
  {
    if At(rest, 0) == '\0' then Ok(st)
    else
      var m :- Step(rest, st);
      Run(rest[m.width..], m.next)
  }

  /**
   * `result[key] = value`: jsoncpp turns the key into a C string and reads a
   * string value back through one, so both end at a NUL decoded from %00.
   */
  function Pair(result: map<string, Value>, key: string, value: string): map<string, Value> {
    result[CString(key) := String(CString(value))]
  }

  /** `result[key] = Json::Value()`, the key again read as a C string. */
  function Flag(result: map<string, Value>, key: string): map<string, Value> {
    result[CString(key) := Null]
  }

  /** Without a NUL, storing a pair is plain map update. */
  lemma StoreClean(result: map<string, Value>, key: string, value: string)
    requires '\0' !in key && '\0' !in value
    ensures Pair(result, key, value) == result[key := String(value)]
    ensures Flag(result, value) == result[value := Null]
  {
  }

  /** After the loop: a pending pair is stored, or the buffered text becomes a key with a null value. */
  function Finish(st: Scanner): map<string, Value> {
    if st.state == InValue then Pair(st.result, st.key, st.value)
    else Flag(st.result, st.value)
  }

  /** parseQueryString: an empty query gives an empty object without running the machine. */
  function ParseQuery(q: string): Result<Value>
  {
    if At(q, 0) == '\0' then Ok(Object(map[]))
    else
      var st :- Run(q, START);
      Ok(Object(Finish(st)))
  }

  /** The decoder's loop, with the pointer p into the query. */
  method ParseQueryString(query: string) returns (r: Result<Value>)
    ensures r == ParseQuery(query)
  {
    var result: map<string, Value> := map[];
    var state := InKey;
    var p := 0;
    var key, value := "", "";
    if At(query, p) == '\0' {
      return Ok(Object(result));
    }
    while At(query, p) != '\0'
      invariant 0 <= p <= |query|
      invariant Run(query[p..], Scanner(state, key, value, result)) == Run(query, START)
      decreases |query| - p
    {
      var c := query[p];
      ghost var start := p;
      assert query[p..][1..] == query[p + 1..];
      if c == '=' {
        state := InValue;
        key := value;
        value := "";
      } else if c == '&' {
        result := Pair(result, key, value);
        key := "";
        value := "";
        state := InKey;
      } else if c == '%' {
        assert HexAt(query[p..], 1) == HexAt(query, p + 1) && HexAt(query[p..], 2) == HexAt(query, p + 2);
        var i := 0;
        p := p + 1;
        var h := ParseHex(HexAt(query, p), i);
        if h.Err? {
          return Err(h.message);
        }
        i := h.value;
        p := p + 1;
        h := ParseHex(HexAt(query, p), i);
        if h.Err? {
          return Err(h.message);
        }
        i := h.value;
        assert query[start..][3..] == query[start + 3..];
        value := value + [i as char];
      } else if c == '+' {
        value := value + " ";
      } else {
        value := value + [c];
      }
      p := p + 1;
    }
    assert At(query[p..], 0) == '\0';
    if state == InValue {
      result := Pair(result, key, value);
    } else {
      result := Flag(result, value);
    }
    return Ok(Object(result));
  }

  // ------------------------------------------------------------ the reference

  /** How much of a part one decoded character takes, and what it decodes to. */
  datatype Piece = Piece(width: nat, text: string)

  /** The first character of a part: '%' must be followed by two hex digits, '+' is a space. */
  function DecodeHead(w: string): (r: Result<Piece>)
    requires w != []
    ensures r.Ok? ==> 1 <= r.value.width <= |w|
    ensures r.Err? ==> r.message == INVALID_HEX
  {
    if w[0] == '%' then
      if |w| >= 3 && IsHexDigit(w[1]) && IsHexDigit(w[2]) then
        Ok(Piece(3, [(DigitValue(w[1]) * 16 + DigitValue(w[2])) as char]))
      else Err(INVALID_HEX)
    else if w[0] == '+' then Ok(Piece(1, " "))
    else Ok(Piece(1, [w[0]]))
  }

  /** One key or value as written, decoded character by character. */
  function DecodeText(w: string): (r: Result<string>)
    ensures r.Err? ==> r.message == INVALID_HEX
    decreases |w|
  {
    if w == [] then Ok("")
    else
      var h :- DecodeHead(w);
      var rest :- DecodeText(w[h.width..]);
      Ok(h.text + rest)
  }

  function DecodeAll(parts: seq<string>): (r: Result<seq<string>>)
    ensures r.Ok? ==> |r.value| == |parts|
    ensures r.Err? ==> r.message == INVALID_HEX
  {
    if parts == [] then Ok([])
    else
      var d :- DecodeText(parts[0]);
      var ds :- DecodeAll(parts[1..]);
      Ok([d] + ds)
  }

  /**
   * The pairs of the '&'-separated segments from the first on.  A segment's
   * value is its last '='-separated part and its key the part before that
   * ("" when there is none); in the final segment a lone part is instead a
   * key with a null value.  Later pairs overwrite earlier ones.
   */
  function Pairs(segs: seq<string>, result: map<string, Value>): (r: Result<map<string, Value>>)
    requires |segs| > 0
    ensures r.Err? ==> r.message == INVALID_HEX
    decreases |segs|
  {
    TokenCount(segs[0], "=");
    var ds :- DecodeAll(Tokens(segs[0], "=", false));
    if |segs| == 1 then
      Ok(if |ds| >= 2 then Pair(result, KeyOf(ds), ValueOf(ds)) else Flag(result, ValueOf(ds)))
    else Pairs(segs[1..], Pair(result, KeyOf(ds), ValueOf(ds)))
  }

  /** The key of a segment whose parts decode to ds: the next-to-last part, or "". */
  function KeyOf(ds: seq<string>): string
    requires |ds| > 0
  {
    if |ds| >= 2 then ds[|ds| - 2] else ""
  }

  /** The value of a segment whose parts decode to ds: the last part. */
  function ValueOf(ds: seq<string>): string
    requires |ds| > 0
  {
    ds[|ds| - 1]
  }

  /** The query string read as '&'-separated segments of '='-separated parts. */
  function Reference(q: string): Result<Value> {
    var s := CString(q);
    if s == "" then Ok(Object(map[]))
    else
      var pairs :- Pairs(Tokens(s, "&", false), map[]);
      Ok(Object(pairs))
  }

  // ----------------------------------------------------------- equivalence

  lemma CStringDrop(q: string, k: nat)
    requires k <= |CString(q)|
    ensures CString(q)[k..] == CString(q[k..])
  {
    if '\0' in q {
      var s := BeforeNul(q);
      assert |s| < |q|;
      assert q[k..][|s| - k] == '\0';
      BeforeNulDrop(q, k);
    } else {
      assert '\0' !in q[k..];
    }
  }

  lemma {:induction false} BeforeNulDrop(q: string, k: nat)
    requires k <= |BeforeNul(q)|
    ensures BeforeNul(q)[k..] == BeforeNul(q[k..])
    decreases k
  {
    if k > 0 {
      assert q[k..] == q[1..][k - 1..];
      BeforeNulDrop(q[1..], k - 1);
    }
  }

  /** The machine stops at the first NUL: it reads exactly the C string. */
  lemma {:induction false} RunCString(q: string, st: Scanner)
    ensures Run(q, st) == Run(CString(q), st)
    decreases |q|
  {
    var s := CString(q);
    if At(q, 0) != '\0' {
      assert HexAt(q, 1) == HexAt(s, 1);
      if q[0] == '%' {
        var hi := ParseHex(HexAt(q, 1), 0);
        if hi.Ok? {
          assert HexAt(q, 2) == HexAt(s, 2);
          if ParseHex(HexAt(q, 2), hi.value).Ok? {
            CStringDrop(q, 3);
            RunCString(q[3..], st.(value := st.value + [ParseHex(HexAt(q, 2), hi.value).value as char]));
          }
        }
      } else {
        CStringDrop(q, 1);
        var next := if q[0] == '=' then Scanner(InValue, st.value, "", st.result)
          else if q[0] == '&' then Scanner(InKey, "", "", Pair(st.result, st.key, st.value))
          else if q[0] == '+' then st.(value := st.value + " ")
          else st.(value := st.value + [q[0]]);
        RunCString(q[1..], next);
      }
    }
  }

  /** Inside a part, one pass of the loop body decodes what DecodeHead decodes. */
  lemma StepReadsHead(w: string, tail: string, st: Scanner)
    requires w != [] && '=' !in w && '&' !in w && '\0' !in w
    requires tail == "" || tail[0] == '=' || tail[0] == '&'
    ensures At(w + tail, 0) != '\0'
    ensures DecodeHead(w).Err? ==> Step(w + tail, st) == Err(INVALID_HEX)
    ensures DecodeHead(w).Ok? ==>
      Step(w + tail, st) == Ok(Move(DecodeHead(w).value.width, st.(value := st.value + DecodeHead(w).value.text)))
  {
    var q := w + tail;
    assert q[0] == w[0] && w[0] in w;
    if w[0] == '%' {
      StepReadsEscape(w, tail, st);
    }
  }

  /** An escape inside a part: the pass reads two hex digits or fails. */
  lemma StepReadsEscape(w: string, tail: string, st: Scanner)
    requires w != [] && w[0] == '%' && '=' !in w && '&' !in w && '\0' !in w
    requires tail == "" || tail[0] == '=' || tail[0] == '&'
    ensures DecodeHead(w).Err? ==> Step(w + tail, st) == Err(INVALID_HEX)
    ensures DecodeHead(w).Ok? ==>
      Step(w + tail, st) == Ok(Move(DecodeHead(w).value.width, st.(value := st.value + DecodeHead(w).value.text)))
  {
    var q := w + tail;
    assert q[0] == '%';
    if |w| >= 2 {
      assert At(q, 1) == w[1] && w[1] in w;
    } else {
      assert !IsHexDigit(HexAt(q, 1));
    }
    if |w| >= 3 {
      assert At(q, 2) == w[2] && w[2] in w;
    } else if |w| == 2 {
      assert !IsHexDigit(HexAt(q, 2));
    }
  }

  lemma DropKeepsClean(w: string, tail: string, k: nat)
    requires k <= |w| && '=' !in w && '&' !in w && '\0' !in w
    ensures '=' !in w[k..] && '&' !in w[k..] && '\0' !in w[k..]
    ensures (w + tail)[k..] == w[k..] + tail
  {
    assert forall c :: c in w[k..] ==> c in w;
  }

  /** Reading one part appends its decoded text to the value buffer, or fails as the part does. */
  lemma {:induction false} RunPart(w: string, tail: string, st: Scanner)
    requires '=' !in w && '&' !in w && '\0' !in w
    requires tail == "" || tail[0] == '=' || tail[0] == '&'
    ensures DecodeText(w).Err? ==> Run(w + tail, st) == Err(INVALID_HEX)
    ensures DecodeText(w).Ok? ==> Run(w + tail, st) == Run(tail, st.(value := st.value + DecodeText(w).value))
    decreases |w|
  {
    if w == [] {
      assert w + tail == tail;
      assert st.value + "" == st.value;
    } else {
      var h := DecodeHead(w);
      if h.Ok? {
        var n := h.value.width;
        var st' := st.(value := st.value + h.value.text);
        RunPartHead(w, tail, st);
        DropKeepsClean(w, tail, n);
        RunPart(w[n..], tail, st');
        var d := DecodeText(w[n..]);
        if d.Ok? {
          assert DecodeText(w) == Ok(h.value.text + d.value);
          AppendAssoc(st.value, h.value.text, d.value);
        } else {
          assert DecodeText(w) == Err(d.message);
        }
      } else {
        StepReadsHead(w, tail, st);
        assert DecodeText(w) == Err(h.message);
      }
    }
  }

  /** The first decoded character of a part, read by one pass of the machine. */
  lemma RunPartHead(w: string, tail: string, st: Scanner)
    requires w != [] && '=' !in w && '&' !in w && '\0' !in w
    requires tail == "" || tail[0] == '=' || tail[0] == '&'
    requires DecodeHead(w).Ok?
    ensures var h := DecodeHead(w).value;
      h.width <= |w| && Run(w + tail, st) == Run(w[h.width..] + tail, st.(value := st.value + h.text))
  {
    StepReadsHead(w, tail, st);
    var h := DecodeHead(w).value;
    DropKeepsClean(w, tail, h.width);
  }

  /** The machine's variables after one segment whose parts decode to ds. */
  function SegmentState(st: Scanner, ds: seq<string>): Scanner
    requires |ds| > 0
    decreases |ds|
  {
    if |ds| == 1 then st.(value := st.value + ds[0])
    else SegmentState(Scanner(InValue, st.value + ds[0], "", st.result), ds[1..])
  }

  lemma {:induction false} SegmentStateShape(st: Scanner, ds: seq<string>)
    requires |ds| > 0 && st.value == ""
    ensures |ds| == 1 ==> SegmentState(st, ds) == st.(value := ds[0])
    ensures |ds| >= 2 ==> SegmentState(st, ds) == Scanner(InValue, ds[|ds| - 2], ds[|ds| - 1], st.result)
    decreases |ds|
  {
    assert st.value + ds[0] == ds[0];
    if |ds| >= 2 {
      SegmentStateShape(Scanner(InValue, ds[0], "", st.result), ds[1..]);
      if |ds| == 2 {
        assert ds[1..][0] == ds[1];
      } else {
        assert ds[1..][|ds| - 3] == ds[|ds| - 2];
      }
    }
  }

  /** Reading one segment, part by part. */
  lemma {:induction false} RunSegment(parts: seq<string>, tail: string, st: Scanner)
    requires |parts| > 0
    requires forall i :: 0 <= i < |parts| ==> '=' !in parts[i] && '&' !in parts[i] && '\0' !in parts[i]
    requires tail == "" || tail[0] == '&'
    ensures DecodeAll(parts).Err? ==> Run(Join(parts, '=') + tail, st) == Err(INVALID_HEX)
    ensures DecodeAll(parts).Ok? ==> Run(Join(parts, '=') + tail, st) == Run(tail, SegmentState(st, DecodeAll(parts).value))
    decreases |parts|
  {
    if |parts| == 1 {
      RunPart(parts[0], tail, st);
      if DecodeAll(parts).Ok? {
        assert DecodeAll(parts).value == [DecodeText(parts[0]).value];
      }
    } else {
      var rest := Join(parts[1..], '=') + tail;
      assert Join(parts, '=') + tail == parts[0] + ("=" + rest);
      RunPart(parts[0], "=" + rest, st);
      var d := DecodeText(parts[0]);
      if d.Ok? {
        var st' := st.(value := st.value + d.value);
        assert ("=" + rest)[1..] == rest;
        assert Run("=" + rest, st') == Run(rest, Scanner(InValue, st'.value, "", st.result));
        RunSegment(parts[1..], tail, Scanner(InValue, st'.value, "", st.result));
        if DecodeAll(parts).Ok? {
          assert DecodeAll(parts).value == [d.value] + DecodeAll(parts[1..]).value;
          assert DecodeAll(parts).value[1..] == DecodeAll(parts[1..]).value;
        }
      }
    }
  }

  /** A segment's parts have none of the delimiters and no NUL. */
  lemma SegmentParts(seg: string)
    requires '&' !in seg && '\0' !in seg
    ensures var parts := Tokens(seg, "=", false);
      && |parts| > 0 && Join(parts, '=') == seg
      && forall i :: 0 <= i < |parts| ==> '=' !in parts[i] && '&' !in parts[i] && '\0' !in parts[i]
  {
    var parts := Tokens(seg, "=", false);
    TokensJoin(seg, "=", '=');
    TokensAreClean(seg, "=", false);
    forall i | 0 <= i < |parts|
      ensures '=' !in parts[i] && '&' !in parts[i] && '\0' !in parts[i]
    {
      if '&' in parts[i] { JoinContains(parts, '=', i, '&'); }
      if '\0' in parts[i] { JoinContains(parts, '=', i, '\0'); }
      assert parts[i] in parts;
    }
  }

  /** Reading the segments from the first on, each starting in KEY state with empty buffers. */
  lemma {:induction false} RunSegments(segs: seq<string>, result: map<string, Value>)
    requires |segs| > 0
    requires forall i :: 0 <= i < |segs| ==> '&' !in segs[i] && '\0' !in segs[i]
    ensures var r := Run(Join(segs, '&'), Scanner(InKey, "", "", result));
      && (Pairs(segs, result).Err? ==> r == Err(INVALID_HEX))
      && (Pairs(segs, result).Ok? ==> r.Ok? && Finish(r.value) == Pairs(segs, result).value)
    decreases |segs|, 1
  {
    if |segs| == 1 {
      assert Join(segs, '&') == segs[0];
      RunLastSegment(segs[0], result);
      TokenCount(segs[0], "=");
    } else {
      RunSegmentsCons(segs, result);
    }
  }

  /** Reading the last segment leaves its pair, or its lone part as a null-valued key, to Finish. */
  lemma RunLastSegment(seg: string, result: map<string, Value>)
    requires '&' !in seg && '\0' !in seg
    ensures var dec := DecodeAll(Tokens(seg, "=", false));
      var r := Run(seg, Scanner(InKey, "", "", result));
      && (dec.Err? ==> r == Err(INVALID_HEX))
      && (dec.Ok? ==>
            && |dec.value| > 0 && r.Ok?
            && Finish(r.value) == (if |dec.value| >= 2 then Pair(result, KeyOf(dec.value), ValueOf(dec.value))
                                   else Flag(result, ValueOf(dec.value))))
  {
    var st := Scanner(InKey, "", "", result);
    var parts := Tokens(seg, "=", false);
    SegmentParts(seg);
    assert seg == Join(parts, '=') + "";
    RunSegment(parts, "", st);
    var dec := DecodeAll(parts);
    if dec.Ok? {
      FinishSegment(result, dec.value);
    }
  }

  /** The pair Finish stores once a whole segment has been read. */
  lemma FinishSegment(result: map<string, Value>, ds: seq<string>)
    requires |ds| > 0
    ensures var last := SegmentState(Scanner(InKey, "", "", result), ds);
      && Run("", last) == Ok(last)
      && Finish(last) == (if |ds| >= 2 then Pair(result, KeyOf(ds), ValueOf(ds)) else Flag(result, ValueOf(ds)))
  {
    var st := Scanner(InKey, "", "", result);
    SegmentStateShape(st, ds);
    var last := SegmentState(st, ds);
    assert Run("", last) == Ok(last);
    if |ds| >= 2 {
      assert last == Scanner(InValue, KeyOf(ds), ValueOf(ds), result);
      assert Finish(last) == Pair(result, KeyOf(ds), ValueOf(ds));
    } else {
      assert last == Scanner(InKey, "", ValueOf(ds), result);
      assert Finish(last) == Flag(result, ValueOf(ds));
    }
  }

  /** Reading a segment and the '&' after it stores the segment's pair and starts afresh. */
  lemma RunFirstSegment(seg: string, rest: string, result: map<string, Value>)
    requires '&' !in seg && '\0' !in seg
    ensures var dec := DecodeAll(Tokens(seg, "=", false));
      var r := Run(seg + ("&" + rest), Scanner(InKey, "", "", result));
      && (dec.Err? ==> r == Err(INVALID_HEX))
      && (dec.Ok? ==>
            && |dec.value| > 0
            && r == Run(rest, Scanner(InKey, "", "", Pair(result, KeyOf(dec.value), ValueOf(dec.value)))))
  {
    var st := Scanner(InKey, "", "", result);
    var parts := Tokens(seg, "=", false);
    SegmentParts(seg);
    RunSegment(parts, "&" + rest, st);
    var dec := DecodeAll(parts);
    if dec.Ok? {
      var ds := dec.value;
      SegmentStateShape(st, ds);
      assert SegmentState(st, ds).key == KeyOf(ds) && SegmentState(st, ds).value == ValueOf(ds);
      RunAmpersand(rest, SegmentState(st, ds));
    }
  }

  lemma {:induction false} RunSegmentsCons(segs: seq<string>, result: map<string, Value>)
    requires |segs| > 1
    requires forall i :: 0 <= i < |segs| ==> '&' !in segs[i] && '\0' !in segs[i]
    ensures var r := Run(Join(segs, '&'), Scanner(InKey, "", "", result));
      && (Pairs(segs, result).Err? ==> r == Err(INVALID_HEX))
      && (Pairs(segs, result).Ok? ==> r.Ok? && Finish(r.value) == Pairs(segs, result).value)
    decreases |segs|, 0
  {
    var rest := Join(segs[1..], '&');
    assert Join(segs, '&') == segs[0] + "&" + rest;
    AppendAssoc(segs[0], "&", rest);
    RunFirstSegment(segs[0], rest, result);
    TokenCount(segs[0], "=");
    var dec := DecodeAll(Tokens(segs[0], "=", false));
    if dec.Ok? {
      var result' := Pair(result, KeyOf(dec.value), ValueOf(dec.value));
      assert forall i :: 0 <= i < |segs[1..]| ==> segs[1..][i] == segs[i + 1];
      RunSegments(segs[1..], result');
      assert Pairs(segs, result) == Pairs(segs[1..], result');
    }
  }

  /** The '&'-separated segments of a C string have no '&' and no NUL, and join back to it. */
  lemma Segments(s: string)
    requires '\0' !in s
    ensures var segs := Tokens(s, "&", false);
      && |segs| > 0 && Join(segs, '&') == s
      && forall i :: 0 <= i < |segs| ==> '&' !in segs[i] && '\0' !in segs[i]
  {
    var segs := Tokens(s, "&", false);
    TokensJoin(s, "&", '&');
    TokensAreClean(s, "&", false);
    forall i | 0 <= i < |segs|
      ensures '&' !in segs[i] && '\0' !in segs[i]
    {
      assert segs[i] in segs;
      if '\0' in segs[i] { JoinContains(segs, '&', i, '\0'); }
    }
  }

  /**
   * The decoder's machine and the reference agree on every query:
   * the pairs are the '&'-separated segments of the text before the first
   * NUL, each split on '=' and decoded, and an empty query is an empty object.
   * Both sides store a pair through Pair or Flag, so a NUL decoded from %00
   * ends the key or value it occurs in.
   */
  lemma ParseQueryIsReference(q: string)
    ensures ParseQuery(q) == Reference(q)
  {
    var s := CString(q);
    RunCString(q, START);
    assert s == "" <==> At(q, 0) == '\0';
    if s != "" {
      var segs := Tokens(s, "&", false);
      Segments(s);
      RunSegments(segs, map[]);
      assert Run(q, START) == Run(Join(segs, '&'), Scanner(InKey, "", "", map[]));
    }
  }


  // ------------------------------------------------------------ properties

  /** Every value the decoder stores is a string, or null for a key without '='. */
  predicate TextValues(m: map<string, Value>) {
    forall k :: k in m ==> m[k].String? || m[k].Null?
  }

  lemma {:induction false} RunKeepsTextValues(rest: string, st: Scanner)
    requires TextValues(st.result)
    ensures Run(rest, st).Ok? ==> TextValues(Run(rest, st).value.result)
    decreases |rest|
  {
    if At(rest, 0) != '\0' {
      var m := Step(rest, st);
      if m.Ok? {
        assert TextValues(m.value.next.result);
        RunKeepsTextValues(rest[m.value.width..], m.value.next);
      }
    }
  }

  /** A successful decode is an object of string and null members. */
  lemma ParseQueryShape(q: string)
    ensures ParseQuery(q).Ok? ==> ParseQuery(q).value.Object? && TextValues(ParseQuery(q).value.members)
  {
    RunKeepsTextValues(q, START);
  }

  /** A '%' at i that is not followed by two hex digits. */
  predicate BadEscapeAt(s: string, i: int) {
    0 <= i < |s| && s[i] == '%' && !(i + 2 < |s| && IsHexDigit(s[i + 1]) && IsHexDigit(s[i + 2]))
  }

  predicate HasBadEscape(s: string) {
    exists i :: 0 <= i < |s| && BadEscapeAt(s, i)
  }

  lemma BadEscapeDrop(s: string, k: nat)
    requires k <= |s|
    requires forall j :: 0 <= j < k ==> !BadEscapeAt(s, j)
    ensures HasBadEscape(s) <==> HasBadEscape(s[k..])
  {
    if HasBadEscape(s) {
      var i :| 0 <= i < |s| && BadEscapeAt(s, i);
      assert i >= k;
      BadEscapeShift(s, k, i - k);
    }
    if HasBadEscape(s[k..]) {
      var i :| 0 <= i < |s[k..]| && BadEscapeAt(s[k..], i);
      BadEscapeShift(s, k, i);
    }
  }

  lemma BadEscapeShift(s: string, k: nat, i: nat)
    requires k + i < |s|
    ensures BadEscapeAt(s[k..], i) <==> BadEscapeAt(s, i + k)
  {
    if i + 2 < |s| - k {
      assert s[k..][i + 1] == s[i + k + 1] && s[k..][i + 2] == s[i + k + 2];
    }
  }

  /** On text without a NUL the machine fails exactly when some '%' lacks its two hex digits. */
  lemma {:induction false} RunFails(s: string, st: Scanner)
    requires '\0' !in s
    ensures Run(s, st).Err? <==> HasBadEscape(s)
    decreases |s|
  {
    if s == [] {
      assert !HasBadEscape(s);
    } else {
      assert s[0] in s;
      var m := Step(s, st);
      if m.Err? {
        assert s[0] == '%';
        if |s| >= 2 { assert s[1] in s; }
        if |s| >= 3 { assert s[2] in s; }
        assert BadEscapeAt(s, 0);
      } else {
        var k := m.value.width;
        if s[0] == '%' {
          assert s[1] in s && s[2] in s;
          assert !BadEscapeAt(s, 1) && !BadEscapeAt(s, 2);
        }
        BadEscapeDrop(s, k);
        assert forall c :: c in s[k..] ==> c in s;
        RunFails(s[k..], m.value.next);
      }
    }
  }

  /**
   * The decoder fails, with the invalid-hex message, exactly when some '%'
   * before the query's NUL is not followed by two hex digits there.
   */
  lemma ParseQueryFails(q: string)
    ensures ParseQuery(q).Err? <==> HasBadEscape(CString(q))
    ensures ParseQuery(q).Err? ==> ParseQuery(q).message == INVALID_HEX
  {
    RunCString(q, START);
    RunFails(CString(q), START);
    if CString(q) == "" {
      assert !HasBadEscape(CString(q));
    }
  }

  // ------------------------------------------------------------ examples

  lemma RunEquals(rest: string, st: Scanner)
    ensures Run("=" + rest, st) == Run(rest, Scanner(InValue, st.value, "", st.result))
  {
    assert ("=" + rest)[1..] == rest;
  }

  lemma RunAmpersand(rest: string, st: Scanner)
    ensures Run("&" + rest, st) == Run(rest, Scanner(InKey, "", "", Pair(st.result, st.key, st.value)))
  {
    assert ("&" + rest)[1..] == rest;
  }

  lemma RunPlainChar(c: char, rest: string, st: Scanner)
    requires c != '=' && c != '&' && c != '%' && c != '\0'
    ensures Run([c] + rest, st) == Run(rest, st.(value := st.value + [if c == '+' then ' ' else c]))
  {
    assert ([c] + rest)[1..] == rest;
  }

  /** A key without '=' is stored with a null value. */
  lemma ExampleFlagStart()
    ensures Run("flag", START) == Run("ag", Scanner(InKey, "", "fl", map[]))
  {
    assert "flag" == "f" + "lag";
    RunPlainChar('f', "lag", Scanner(InKey, "", "", map[]));
    assert "" + ['f'] == "f";
    assert "lag" == "l" + "ag";
    RunPlainChar('l', "ag", Scanner(InKey, "", "f", map[]));
    assert "f" + ['l'] == "fl";
  }

  lemma ExampleFlag()
    ensures ParseQuery("flag") == Ok(Object(map["flag" := Null]))
  {
    ExampleFlagRun();
    StoreClean(map[], "", "flag");
  }

  lemma ExampleFlagRun()
    ensures Run("flag", START) == Ok(Scanner(InKey, "", "flag", map[]))
  {
    ExampleFlagStart();
    assert "ag" == "a" + "g";
    RunPlainChar('a', "g", Scanner(InKey, "", "fl", map[]));
    assert "fl" + ['a'] == "fla";
    assert "g" == "g" + "";
    RunPlainChar('g', "", Scanner(InKey, "", "fla", map[]));
    assert "fla" + ['g'] == "flag";
    assert Run("", Scanner(InKey, "", "flag", map[])) == Ok(Scanner(InKey, "", "flag", map[]));
  }

  /** The pair a=1 and the '&' after it, read ahead of any rest: the key first ... */
  lemma ExamplePairKey(rest: string)
    ensures Run("a=" + rest, START) == Run(rest, Scanner(InValue, "a", "", map[]))
  {
    assert "a=" + rest == "a" + ("=" + rest);
    RunPlainChar('a', "=" + rest, Scanner(InKey, "", "", map[]));
    assert "" + ['a'] == "a";
    RunEquals(rest, Scanner(InKey, "", "a", map[]));
  }

  /** ... then the value and the '&' that stores the pair. */
  lemma ExamplePairValue(rest: string)
    ensures Run("1&" + rest, Scanner(InValue, "a", "", map[])) == Run(rest, Scanner(InKey, "", "", map["a" := String("1")]))
  {
    assert "1&" + rest == "1" + ("&" + rest);
    RunPlainChar('1', "&" + rest, Scanner(InValue, "a", "", map[]));
    assert "" + ['1'] == "1";
    RunAmpersand(rest, Scanner(InValue, "a", "1", map[]));
    StoreClean(map[], "a", "1");
    assert map[]["a" := String("1")] == map["a" := String("1")];
  }

  lemma ExampleTwoPairs()
    ensures ParseQuery("a=1&b=2") == Ok(Object(map["a" := String("1"), "b" := String("2")]))
  {
    assert "a=1&b=2" == "a=" + "1&b=2";
    ExamplePairKey("1&b=2");
    assert "1&b=2" == "1&" + "b=2";
    ExamplePairValue("b=2");
    ExampleSecondPairRun();
    StoreClean(map["a" := String("1")], "b", "2");
  }

  lemma ExampleSecondPairRun()
    ensures Run("b=2", Scanner(InKey, "", "", map["a" := String("1")])) == Ok(Scanner(InValue, "b", "2", map["a" := String("1")]))
  {
    assert "b=2" == "b" + "=2";
    RunPlainChar('b', "=2", Scanner(InKey, "", "", map["a" := String("1")]));
    assert "" + ['b'] == "b";
    assert "=2" == "=" + "2";
    RunEquals("2", Scanner(InKey, "", "b", map["a" := String("1")]));
    assert "2" == "2" + "";
    RunPlainChar('2', "", Scanner(InValue, "b", "", map["a" := String("1")]));
    assert "" + ['2'] == "2";
    assert Run("", Scanner(InValue, "b", "2", map["a" := String("1")])) == Ok(Scanner(InValue, "b", "2", map["a" := String("1")]));
  }

  /** A trailing '&' leaves an empty key with a null value. */
  lemma ExampleTrailingAmpersand()
    ensures ParseQuery("a=1&") == Ok(Object(map["a" := String("1"), "" := Null]))
  {
    ExampleTrailingAmpersandRun();
    StoreClean(map["a" := String("1")], "", "");
  }

  lemma ExampleTrailingAmpersandRun()
    ensures Run("a=1&", START) == Ok(Scanner(InKey, "", "", map["a" := String("1")]))
  {
    assert "a=1&" == "a=" + "1&";
    ExamplePairKey("1&");
    assert "1&" == "1&" + "";
    ExamplePairValue("");
    assert Run("", Scanner(InKey, "", "", map["a" := String("1")])) == Ok(Scanner(InKey, "", "", map["a" := String("1")]));
  }

  /** A lone word before '&' becomes the value of the empty key. */
  lemma ExampleLoneWordKey()
    ensures Run("x&y=1", START) == Run("y=1", Scanner(InKey, "", "", map["" := String("x")]))
  {
    assert "x&y=1" == "x" + "&y=1";
    RunPlainChar('x', "&y=1", Scanner(InKey, "", "", map[]));
    assert "" + ['x'] == "x";
    assert "&y=1" == "&" + "y=1";
    RunAmpersand("y=1", Scanner(InKey, "", "x", map[]));
    StoreClean(map[], "", "x");
    assert map[]["" := String("x")] == map["" := String("x")];
  }

  lemma ExampleLoneWord()
    ensures ParseQuery("x&y=1") == Ok(Object(map["" := String("x"), "y" := String("1")]))
  {
    ExampleLoneWordKey();
    assert "y=1" == "y" + "=1";
    RunPlainChar('y', "=1", Scanner(InKey, "", "", map["" := String("x")]));
    assert "" + ['y'] == "y";
    assert "=1" == "=" + "1";
    RunEquals("1", Scanner(InKey, "", "y", map["" := String("x")]));
    assert "1" == "1" + "";
    RunPlainChar('1', "", Scanner(InValue, "y", "", map["" := String("x")]));
    assert "" + ['1'] == "1";
    assert Run("", Scanner(InValue, "y", "1", map["" := String("x")])) == Ok(Scanner(InValue, "y", "1", map["" := String("x")]));
    StoreClean(map["" := String("x")], "y", "1");
  }

  /** Of several '=' the last one splits: the key is the text between the last two. */
  lemma ExampleSecondEquals()
    ensures ParseQuery("a=b=c") == Ok(Object(map["b" := String("c")]))
  {
    assert "a=b=c" == "a" + "=b=c";
    RunPlainChar('a', "=b=c", Scanner(InKey, "", "", map[]));
    assert "" + ['a'] == "a";
    assert "=b=c" == "=" + "b=c";
    RunEquals("b=c", Scanner(InKey, "", "a", map[]));
    assert "b=c" == "b" + "=c";
    RunPlainChar('b', "=c", Scanner(InValue, "a", "", map[]));
    assert "" + ['b'] == "b";
    assert "=c" == "=" + "c";
    RunEquals("c", Scanner(InValue, "a", "b", map[]));
    assert "c" == "c" + "";
    RunPlainChar('c', "", Scanner(InValue, "b", "", map[]));
    assert "" + ['c'] == "c";
    assert Run("", Scanner(InValue, "b", "c", map[])) == Ok(Scanner(InValue, "b", "c", map[]));
    StoreClean(map[], "b", "c");
  }

  /** '+' decodes to a space and "%41" to 'A'. */
  lemma ExampleDecoding()
    ensures ParseQuery("+") == Ok(Object(map[" " := Null]))
    ensures ParseQuery("%41") == Ok(Object(map["A" := Null]))
  {
    assert "+" == "+" + "";
    RunPlainChar('+', "", Scanner(InKey, "", "", map[]));
    assert "" + [' '] == " ";
    assert Run("", Scanner(InKey, "", " ", map[])) == Ok(Scanner(InKey, "", " ", map[]));
    StoreClean(map[], "", " ");
    assert HexAt("%41", 1) == '4' && HexAt("%41", 2) == '1';
    assert ParseHex('4', 0) == Ok(4);
    assert ParseHex('1', 4) == Ok(0x41);
    assert "%41"[0] == '%' && START.value + [0x41 as char] == "A";
    assert Step("%41", START) == Ok(Move(3, START.(value := "A")));
    assert "%41"[3..] == "";
    StoreClean(map[], "", "A");
  }

  /**
   * A NUL decoded from %00 ends the key or the value it is part of, since
   * jsoncpp keeps both as C strings.
   */
  lemma ExampleDecodedNul()
    ensures ParseQuery("%00") == Ok(Object(map["" := Null]))
    ensures ParseQuery("a%00b=1") == Ok(Object(map["a" := String("1")]))
  {
    ExampleNulAloneRun();
    assert CString("\0") == "";
    ExampleNulInKeyRun();
    assert BeforeNul("a\0b") == "a";
    assert CString("1") == "1";
  }

  lemma ExampleNulAloneRun()
    ensures Run("%00", START) == Ok(Scanner(InKey, "", "\0", map[]))
  {
    assert HexAt("%00", 1) == '0' && HexAt("%00", 2) == '0';
    assert ParseHex('0', 0) == Ok(0);
    assert "%00"[0] == '%' && START.value + [0 as char] == "\0";
    assert Step("%00", START) == Ok(Move(3, START.(value := "\0")));
    assert "%00"[3..] == "";
  }

  lemma ExampleNulEscape()
    ensures Run("%00b=1", Scanner(InKey, "", "a", map[])) == Run("b=1", Scanner(InKey, "", "a\0", map[]))
  {
    var st := Scanner(InKey, "", "a", map[]);
    assert HexAt("%00b=1", 1) == '0' && HexAt("%00b=1", 2) == '0';
    assert ParseHex('0', 0) == Ok(0);
    assert "%00b=1"[0] == '%' && st.value + [0 as char] == "a\0";
    assert Step("%00b=1", st) == Ok(Move(3, st.(value := "a\0")));
    assert "%00b=1"[3..] == "b=1";
  }

  lemma ExampleNulInKeyRun()
    ensures Run("a%00b=1", START) == Ok(Scanner(InValue, "a\0b", "1", map[]))
  {
    assert "a%00b=1" == "a" + "%00b=1";
    RunPlainChar('a', "%00b=1", START);
    assert "" + ['a'] == "a";
    ExampleNulEscape();
    assert "b=1" == "b" + "=1";
    RunPlainChar('b', "=1", Scanner(InKey, "", "a\0", map[]));
    assert "a\0" + ['b'] == "a\0b";
    assert "=1" == "=" + "1";
    RunEquals("1", Scanner(InKey, "", "a\0b", map[]));
    assert "1" == "1" + "";
    RunPlainChar('1', "", Scanner(InValue, "a\0b", "", map[]));
    assert "" + ['1'] == "1";
    assert Run("", Scanner(InValue, "a\0b", "1", map[])) == Ok(Scanner(InValue, "a\0b", "1", map[]));
  }

  /**
   * A raw character outside ASCII is copied like any other, while after '%'
   * it is no hex digit and the escape is refused.
   */
  lemma ExampleNonAscii()
    ensures ParseQuery("k=\U{E9}") == Ok(Object(map["k" := String("\U{E9}")]))
    ensures ParseQuery("%\U{E9}0") == Err(INVALID_HEX)
  {
    assert "k=\U{E9}" == "k" + ("=" + "\U{E9}");
    RunPlainChar('k', "=\U{E9}", Scanner(InKey, "", "", map[]));
    assert "" + ['k'] == "k";
    RunEquals("\U{E9}", Scanner(InKey, "", "k", map[]));
    assert "\U{E9}" == "\U{E9}" + "";
    RunPlainChar('\U{E9}', "", Scanner(InValue, "k", "", map[]));
    assert "" + ['\U{E9}'] == "\U{E9}";
    assert Run("", Scanner(InValue, "k", "\U{E9}", map[])) == Ok(Scanner(InValue, "k", "\U{E9}", map[]));
    StoreClean(map[], "k", "\U{E9}");
    assert HexAt("%\U{E9}0", 1) == '\0';
  }

  /** A '%' without two hex digits fails, at the end of the query or not. */
  lemma ExampleBadEscapes()
    ensures ParseQuery("%") == Err(INVALID_HEX)
    ensures ParseQuery("%a") == Err(INVALID_HEX)
    ensures ParseQuery("%zz") == Err(INVALID_HEX)
  {
    assert HexAt("%", 1) == '\0';
    assert HexAt("%a", 2) == '\0';
    assert HexAt("%zz", 1) == 'z';
  }
}
