/**
 * JSON values and the few operations of the JSON library (jsoncpp, in the
 * 0.5/0.6 releases the gateway was written against) that the core relies on.
 * Text parsing and pretty-printing are not part of this model.
 */
module Json {
  import opened Errors
  import opened KeyOrder

  /** The library's value-type enumeration, in declaration order. */
  datatype ValueType =
    | NullValue | IntValue | UIntValue | RealValue
    | StringValue | BooleanValue | ArrayValue | ObjectValue

  /**
   * The value Value(type) constructs: the default value of that type.  An
   * unsigned zero is written as the integer zero.
   */
  function DefaultOf(t: ValueType): (v: Value)
    ensures v.Null? <==> t == NullValue
    ensures v.Int? ==> v.i == 0
    ensures v.String? ==> v.s == ""
  {
    match t
    case NullValue => Null
    case IntValue => Int(0)
    case UIntValue => Int(0)
    case RealValue => Real(false)
    case StringValue => String("")
    case BooleanValue => Bool(false)
    case ArrayValue => Array([])
    case ObjectValue => Object(map[])
  }

  /**
   * A JSON value.  A floating-point number is reduced to the one fact the
   * core uses about it: whether it is non-zero.
   */
  datatype Value =
    | Null
    | Bool(b: bool)
    | Int(i: int)
    | Real(nonZero: bool)
    | String(s: string)
    | Array(items: seq<Value>)
    | Object(members: map<string, Value>)

  /** isObject(): in these releases a null value also counts as an object. */
  predicate IsObject(v: Value) {
    v.Null? || v.Object?
  }

  /** Read access through operator[] on an object: the member, or null when it is absent. */
  function Member(v: Value, key: string): (r: Value)
    requires IsObject(v)
    ensures v.Object? && key in v.members ==> r == v.members[key]
    ensures (v.Null? || key !in v.members) ==> r == Null
  {
    if v.Object? && key in v.members then v.members[key] else Null
  }

  /** isMember(key). */
  predicate HasMember(v: Value, key: string)
    requires IsObject(v)
  {
    v.Object? && key in v.members
  }

  /** get(key, default): the member if present (even when it is null), otherwise the default. */
  function GetOr(v: Value, key: string, default: Value): (r: Value)
    requires IsObject(v)
    ensures HasMember(v, key) ==> r == v.members[key]
    ensures !HasMember(v, key) ==> r == default
  {
    if HasMember(v, key) then v.members[key] else default
  }

  /** Assignment through operator[]: a null value first becomes an empty object. */
  function SetMember(v: Value, key: string, x: Value): (r: Value)
    requires IsObject(v)
    ensures r.Object? && key in r.members && r.members[key] == x
    ensures forall k :: k != key ==> (HasMember(r, k) <==> HasMember(v, k))
    ensures forall k :: k != key && HasMember(v, k) ==> k in r.members && r.members[k] == v.members[k]
  {
    if v.Null? then Object(map[key := x]) else Object(v.members[key := x])
  }

  /**
   * Non-const operator[] used only for reading: it inserts a null member when
   * the key is absent, so a null value becomes an object.
   */
  function Touch(v: Value, key: string): (r: Value)
    requires IsObject(v)
    ensures r.Object? && Member(r, key) == Member(v, key)
    ensures forall k :: k != key ==> Member(r, k) == Member(v, k)
  {
    if HasMember(v, key) then v else SetMember(v, key, Null)
  }

  /**
   * The text a C string holding q reads as: the part before the first NUL.
   * Member names and string values go through C strings in the library.
   */
  function CString(q: string): (s: string)
    ensures '\0' !in s
    ensures '\0' !in q ==> s == q
  {
    if '\0' in q then BeforeNul(q) else q
  }

  /** The characters of q up to its first NUL, one at a time. */
  function BeforeNul(q: string): (s: string)
    ensures |s| <= |q| && s == q[..|s|] && '\0' !in s
    ensures |s| < |q| ==> q[|s|] == '\0'
    decreases |q|
  {
    if q == [] || q[0] == '\0' then ""
    else [q[0]] + BeforeNul(q[1..])
  }

  /**
   * asString(): a string is read back through its C string, so it ends at its
   * first NUL; numbers, arrays and objects are not convertible.
   */
  function AsString(v: Value): (r: Result<string>)
    ensures v.String? ==> r == Ok(CString(v.s))
    ensures v.Null? ==> r == Ok("")
    ensures r.Err? <==> (v.Int? || v.Real? || v.Array? || v.Object?)
  {
    match v
    case Null => Ok("")
    case String(s) => Ok(CString(s))
    case Bool(b) => Ok(if b then "true" else "false")
    case _ => Err("Type is not convertible to string")
  }

  /** asBool(): every value converts; containers and strings by being non-empty. */
  function AsBool(v: Value): bool {
    match v
    case Null => false
    case Bool(b) => b
    case Int(i) => i != 0
    case Real(nz) => nz
    case String(s) => |s| > 0 && s[0] != '\0'
    case Array(items) => |items| > 0
    case Object(members) => |members| > 0
  }

  /**
   * getMemberNames(): the keys of an object in the library's (sorted) order.
   * On any other non-null value the library asserts instead of returning;
   * that abort is an error value here.
   */
  function MemberNames(v: Value): (r: Result<seq<string>>)
    ensures v.Null? ==> r == Ok([])
    ensures v.Object? ==> r.Ok? && Distinct(r.value) && (forall k :: k in r.value <==> k in v.members)
    ensures r.Err? <==> !IsObject(v)
  {
    match v
    case Null => Ok([])
    case Object(m) => Ok(SortedKeys(m))
    case _ => Err("Value must be an object or null to list its members")
  }

  /**
   * The values a range-for over a Value visits: an array's items, an object's
   * members in key order, and nothing for any other value.
   */
  function Elements(v: Value): (r: seq<Value>)
    ensures v.Array? ==> r == v.items
    ensures !v.Array? && !v.Object? ==> r == []
    ensures v.Object? ==> |r| == |v.members| && forall x :: x in r ==> x in v.members.Values
  {
    match v
    case Array(items) => items
    case Object(m) =>
      var keys := SortedKeys(m);
      seq(|keys|, i requires 0 <= i < |keys| => m[keys[i]])
    case _ => []
  }

  /** append(): a null value first becomes an empty array. */
  function Append(v: Value, x: Value): (r: Value)
    requires v.Null? || v.Array?
    ensures r.Array? && r.items == (if v.Null? then [] else v.items) + [x]
  {
    if v.Null? then Array([x]) else Array(v.items + [x])
  }
}
