/**
 * The flat-file credential backend: a cached map from user name to password
 * hash, kept in a text file of `user:hash` lines, and the connection through
 * which the orchestrator updates, inserts or deletes one user.
 */
module Htpasswd {
  import opened Errors
  import opened Json
  import opened KeyOrder
  import opened Utils

  /** std::map<string,string> from user name to hash. */
  type UserMap = map<string, string>

  // ------------------------------------------------------------ file format

  /**
   * The lines getline reads from a text: each ends at a newline, the
   * newline is dropped, and a final newline does not start another line.
   */
  function Lines(text: string): seq<string>
    decreases |text|
  {
    if text == [] then []
    else
      var n := FindFirstOf(text, "\n", 0);
      if n == NPOS then [text] else [text[..n]] + Lines(text[n + 1..])
  }

  /**
   * One line of the store split at its first colon.  A line without a colon
   * maps to itself: find returns npos, substr(0, npos) is the whole line and
   * npos + 1 wraps round to 0.
   */
  function ParseLine(line: string): (string, string) {
    var idx := FindFirstOf(line, ":", 0);
    if idx == NPOS then (line, line) else (line[..idx], line[idx + 1..])
  }

  /** The map after storing each line in turn, so a later line for a user wins. */
  function ParseLines(lines: seq<string>, users: UserMap): UserMap {
    if lines == [] then users
    else
      var entry := ParseLine(lines[0]);
      ParseLines(lines[1..], users[entry.0 := entry.1])
  }

  /** The map a reload builds from the file's text. */
  function Parse(text: string): UserMap {
    ParseLines(Lines(text), map[])
  }

  /** The line flushCache writes for one entry. */
  function Entry(user: string, hash: string): string {
    user + ":" + hash + "\n"
  }

  function SerializeKeys(users: UserMap, keys: seq<string>): string
    requires forall i :: 0 <= i < |keys| ==> keys[i] in users
  {
    if keys == [] then ""
    else Entry(keys[0], users[keys[0]]) + SerializeKeys(users, keys[1..])
  }

  /** The text flushCache writes: one line per entry, in the map's key order. */
  function Serialize(users: UserMap): string {
    SerializeKeys(users, SortedKeys(users))
  }

  /** Entries that survive a write and a reload: no colon in a name, no newline anywhere. */
  predicate Clean(users: UserMap) {
    forall u :: u in users ==> ':' !in u && '\n' !in u && '\n' !in users[u]
  }

  lemma ParseLineMeaning(line: string)
    ensures ':' !in line ==> ParseLine(line) == (line, line)
    ensures ':' in line ==> ':' !in ParseLine(line).0 && ParseLine(line).0 + ":" + ParseLine(line).1 == line
  {
    FindFirstOfIsFirst(line, ":", 0);
    var idx := FindFirstOf(line, ":", 0);
    if idx != NPOS {
      assert line == line[..idx] + [line[idx]] + line[idx + 1..];
    } else {
      assert forall c :: c in line ==> c != ':';
    }
  }

  /** Appending a line to the file stores that line's entry over whatever came before. */
  lemma {:induction false} ParseLinesSnoc(lines: seq<string>, line: string, users: UserMap)
    ensures ParseLines(lines + [line], users) == ParseLines(lines, users)[ParseLine(line).0 := ParseLine(line).1]
    decreases |lines|
  {
    if lines == [] {
      assert [line][1..] == [];
    } else {
      assert (lines + [line])[1..] == lines[1..] + [line];
      var entry := ParseLine(lines[0]);
      ParseLinesSnoc(lines[1..], line, users[entry.0 := entry.1]);
    }
  }

  lemma ParseLinesCons(line: string, lines: seq<string>, users: UserMap)
    ensures ParseLines([line] + lines, users) == ParseLines(lines, users[ParseLine(line).0 := ParseLine(line).1])
  {
    assert ([line] + lines)[1..] == lines;
  }

  /** No line getline returns holds a newline. */
  lemma {:induction false} LinesHaveNoNewline(text: string)
    ensures forall line :: line in Lines(text) ==> '\n' !in line
    decreases |text|
  {
    if text != [] {
      FindFirstOfIsFirst(text, "\n", 0);
      var n := FindFirstOf(text, "\n", 0);
      if n == NPOS {
        assert forall c :: c in text ==> c != '\n';
      } else {
        assert forall c :: c in text[..n] ==> c != '\n';
        LinesHaveNoNewline(text[n + 1..]);
      }
    }
  }

  /** Searching the text from pos + j finds what searching its suffix at pos from j finds. */
  lemma {:induction false} FindFirstOfDrop(text: string, delimiters: string, pos: nat, j: nat)
    requires pos <= |text| && j <= |text| - pos
    ensures var p := FindFirstOf(text[pos..], delimiters, j);
      FindFirstOf(text, delimiters, pos + j) == if p == NPOS then NPOS else pos + p
    decreases |text| - pos - j
  {
    if j < |text| - pos {
      assert text[pos..][j] == text[pos + j];
      FindFirstOfDrop(text, delimiters, pos, j + 1);
    }
  }

  /** One getline call at position pos: the line up to the next newline, then the rest. */
  lemma LinesStep(text: string, pos: nat)
    requires pos < |text|
    ensures var n := FindFirstOf(text, "\n", pos);
      && (n == NPOS ==> Lines(text[pos..]) == [text[pos..]])
      && (n != NPOS ==> Lines(text[pos..]) == [text[pos..n]] + Lines(text[n + 1..]))
  {
    var rest := text[pos..];
    assert rest != [];
    FindFirstOfDrop(text, "\n", pos, 0);
    var p := FindFirstOf(rest, "\n", 0);
    if p == NPOS {
      assert Lines(rest) == [rest];
    } else {
      var n := FindFirstOf(text, "\n", pos);
      assert n == pos + p;
      var line, after := rest[..p], rest[p + 1..];
      assert line == text[pos..n];
      assert after == text[n + 1..];
      assert Lines(rest) == [line] + Lines(after);
      assert Lines(text[pos..]) == [text[pos..n]] + Lines(text[n + 1..]);
    }
  }

  /** What the reload loop keeps: the entry of the line read at pos, then the lines after it. */
  lemma ReadStep(text: string, pos: nat, line: string, next: nat, users: UserMap)
    requires pos < |text| && next <= |text|
    requires var n := FindFirstOf(text, "\n", pos);
      && (n == NPOS ==> line == text[pos..] && next == |text|)
      && (n != NPOS ==> line == text[pos..n] && next == n + 1)
    ensures ParseLines(Lines(text[pos..]), users) == ParseLines(Lines(text[next..]), users[ParseLine(line).0 := ParseLine(line).1])
  {
    LinesStep(text, pos);
    assert Lines(text[pos..]) == [line] + Lines(text[next..]);
    ParseLinesCons(line, Lines(text[next..]), users);
  }

  lemma LinesOfEntry(line: string, rest: string)
    requires '\n' !in line
    ensures Lines(line + "\n" + rest) == [line] + Lines(rest)
  {
    var text := line + "\n" + rest;
    FindFirstOfIsFirst(text, "\n", 0);
    assert text[|line|] == '\n';
    assert forall j :: 0 <= j < |line| ==> text[j] == line[j];
    var n := FindFirstOf(text, "\n", 0);
    assert n == |line|;
    assert text[..n] == line;
    assert text[n + 1..] == rest;
  }

  lemma ParseLineOfEntry(user: string, hash: string)
    requires ':' !in user
    ensures ParseLine(user + ":" + hash) == (user, hash)
  {
    var line := user + ":" + hash;
    FindFirstOfIsFirst(line, ":", 0);
    assert line[|user|] == ':';
    assert forall j :: 0 <= j < |user| ==> line[j] == user[j];
    assert FindFirstOf(line, ":", 0) == |user|;
    assert line[..|user|] == user;
    assert line[|user| + 1..] == hash;
  }

  /** The entries of users whose keys are listed. */
  function Restrict(users: UserMap, keys: seq<string>): UserMap {
    map u | u in users && u in keys :: users[u]
  }

  lemma {:induction false} ParseSerializeKeys(users: UserMap, keys: seq<string>, acc: UserMap)
    requires Clean(users)
    requires forall i :: 0 <= i < |keys| ==> keys[i] in users
    ensures ParseLines(Lines(SerializeKeys(users, keys)), acc) == acc + Restrict(users, keys)
    decreases |keys|
  {
    if keys == [] {
      assert Restrict(users, keys) == map[];
    } else {
      var u := keys[0];
      var line := u + ":" + users[u];
      var rest := SerializeKeys(users, keys[1..]);
      assert Entry(u, users[u]) + rest == line + "\n" + rest;
      LinesOfEntry(line, rest);
      ParseLineOfEntry(u, users[u]);
      ParseLinesCons(line, Lines(rest), acc);
      ParseSerializeKeys(users, keys[1..], acc[u := users[u]]);
      RestrictCons(users, keys, acc);
    }
  }

  lemma RestrictCons(users: UserMap, keys: seq<string>, acc: UserMap)
    requires keys != [] && keys[0] in users
    ensures acc[keys[0] := users[keys[0]]] + Restrict(users, keys[1..]) == acc + Restrict(users, keys)
  {
    assert forall u :: u in keys <==> u == keys[0] || u in keys[1..];
  }

  /**
   * Writing the map and reading the file back gives the same map, provided
   * no name holds a colon and no name or hash holds a newline.
   */
  lemma ParseSerialize(users: UserMap)
    requires Clean(users)
    ensures Parse(Serialize(users)) == users
  {
    var keys := SortedKeys(users);
    ParseSerializeKeys(users, keys, map[]);
    RestrictAll(users, keys);
  }

  lemma RestrictAll(users: UserMap, keys: seq<string>)
    requires forall u :: u in users ==> u in keys
    ensures map[] + Restrict(users, keys) == users
  {
    var r := Restrict(users, keys);
    assert r.Keys == users.Keys;
    forall u | u in r ensures r[u] == users[u] { }
    assert map[] + r == r;
  }

  lemma {:induction false} SerializeKeysSnoc(users: UserMap, keys: seq<string>, u: string)
    requires forall i :: 0 <= i < |keys| ==> keys[i] in users
    requires u in users
    ensures SerializeKeys(users, keys + [u]) == SerializeKeys(users, keys) + Entry(u, users[u])
    decreases |keys|
  {
    if keys == [] {
      assert [u][1..] == [];
    } else {
      assert (keys + [u])[1..] == keys[1..] + [u];
      SerializeKeysSnoc(users, keys[1..], u);
    }
  }

  /** One more key of the listing adds its entry at the end. */
  lemma SerializeKeysPrefix(users: UserMap, keys: seq<string>, i: nat)
    requires forall j :: 0 <= j < |keys| ==> keys[j] in users
    requires i < |keys|
    ensures SerializeKeys(users, keys[..i + 1]) == SerializeKeys(users, keys[..i]) + Entry(keys[i], users[keys[i]])
  {
    assert keys[..i + 1] == keys[..i] + [keys[i]];
    SerializeKeysSnoc(users, keys[..i], keys[i]);
  }

  // ------------------------------------------------------------------ store

  /** The store file: its text and the modification time stat reports. */
  class TextFile {
    var text: string
    var mtime: int

    constructor (text: string, mtime: int)
      ensures this.text == text && this.mtime == mtime
    {
      this.text := text;
      this.mtime := mtime;
    }
  }

  /** The salt hashCrypt passes to crypt(3). */
  const CRYPT_SALT: string := "ZZ"

  /** hashCrypt, given crypt(3) as a function of the key and the salt. */
  function HashCrypt(crypt: (string, string) -> string): string -> string {
    p => crypt(p, CRYPT_SALT)
  }

  const INVALID_USERNAME: string := "Invalid username: "

  /** The map updateUser leaves: the user must exist, and gets the new hash. */
  function Updated(users: UserMap, username: string, password: string, hashFn: string -> string): (r: Result<UserMap>)
    ensures r.Err? <==> username !in users
    ensures r.Err? ==> r.message == INVALID_USERNAME + username
    ensures r.Ok? ==> r.value.Keys == users.Keys && r.value[username] == hashFn(password)
    ensures r.Ok? ==> forall u :: u in users && u != username ==> r.value[u] == users[u]
  {
    if username !in users then Err(INVALID_USERNAME + username)
    else Ok(users[username := hashFn(password)])
  }

  /** The map insertUser leaves: the user must not exist yet. */
  function Inserted(users: UserMap, username: string, password: string, hashFn: string -> string): (r: Result<UserMap>)
    ensures r.Err? <==> username in users
    ensures r.Err? ==> r.message == INVALID_USERNAME + username
    ensures r.Ok? ==> r.value.Keys == users.Keys + {username} && r.value[username] == hashFn(password)
    ensures r.Ok? ==> forall u :: u in users ==> r.value[u] == users[u]
  {
    if username in users then Err(INVALID_USERNAME + username)
    else Ok(users[username := hashFn(password)])
  }

  /** The map deleteUser leaves: the user must exist, and is removed. */
  function Deleted(users: UserMap, username: string): (r: Result<UserMap>)
    ensures r.Err? <==> username !in users
    ensures r.Err? ==> r.message == INVALID_USERNAME + username
    ensures r.Ok? ==> r.value.Keys == users.Keys - {username}
    ensures r.Ok? ==> forall u :: u in r.value ==> r.value[u] == users[u]
  {
    if username !in users then Err(INVALID_USERNAME + username)
    else Ok(users - {username})
  }

  /** HtPasswdDb: the cached user map of one store file. */
  class HtPasswdDb {
    const dbFile: string
    /** The file that dbFile names. */
    const file: TextFile
    const hashFn: string -> string
    /** The modification time of the file when it was last read. */
    var modified: int
    var users: UserMap

    constructor (dbFile: string, file: TextFile, hashFn: string -> string)
      ensures this.dbFile == dbFile && this.file == file && this.hashFn == hashFn
      ensures file.mtime > 0 ==> users == Parse(file.text) && modified == file.mtime
      ensures file.mtime <= 0 ==> users == map[] && modified == 0
    {
      this.dbFile := dbFile;
      this.file := file;
      this.hashFn := hashFn;
      modified := 0;
      users := map[];
      new;
      SyncCache();
    }

    /** syncCache: reload the map, from scratch, when the file is newer than the last read. */
    method SyncCache()
      modifies this
      ensures file.mtime > old(modified) ==> users == Parse(file.text) && modified == file.mtime
      ensures file.mtime <= old(modified) ==> users == old(users) && modified == old(modified)
    {
      var fileModified := file.mtime;
      if fileModified > modified {
        var text := file.text;
        users := map[];
        var pos: nat := 0;
        while pos < |text|
          invariant pos <= |text|
          invariant ParseLines(Lines(text[pos..]), users) == Parse(text)
          decreases |text| - pos
        {
          var n := FindFirstOf(text, "\n", pos);
          var line, next;
          if n == NPOS {
            line, next := text[pos..], |text|;
          } else {
            line, next := text[pos..n], n + 1;
          }
          ReadStep(text, pos, line, next, users);
          ghost var before := users;
          var idx := FindFirstOf(line, ":", 0);
          if idx == NPOS {
            users := users[line := line];
          } else {
            users := users[line[..idx] := line[idx + 1..]];
          }
          assert users == before[ParseLine(line).0 := ParseLine(line).1];
          pos := next;
        }
        modified := fileModified;
      }
    }

    /** flushCache: write every entry, in key order, as a `user:hash` line. */
    method FlushCache(now: int)
      modifies file
      ensures file.text == Serialize(users) && file.mtime == now
    {
      var keys := SortedKeys(users);
      assert forall i :: 0 <= i < |keys| ==> keys[i] in users;
      var out := "";
      for i := 0 to |keys|
        invariant out == SerializeKeys(users, keys[..i])
      {
        SerializeKeysPrefix(users, keys, i);
        out := out + Entry(keys[i], users[keys[i]]);
      }
      assert keys[..|keys|] == keys;
      file.text := out;
      file.mtime := now;
    }

    method UpdateUser(username: string, password: string, now: int) returns (s: Status)
      modifies this, file
      ensures modified == old(modified)
      ensures match Updated(old(users), username, password, hashFn)
        case Ok(m) => s == Pass && users == m && file.text == Serialize(m) && file.mtime == now
        case Err(e) => s == Fail(e) && users == old(users) && unchanged(file)
    {
      if username !in users {
        return Fail(INVALID_USERNAME + username);
      }
      users := users[username := hashFn(password)];
      FlushCache(now);
      s := Pass;
    }

    method InsertUser(username: string, password: string, now: int) returns (s: Status)
      modifies this, file
      ensures modified == old(modified)
      ensures match Inserted(old(users), username, password, hashFn)
        case Ok(m) => s == Pass && users == m && file.text == Serialize(m) && file.mtime == now
        case Err(e) => s == Fail(e) && users == old(users) && unchanged(file)
    {
      if username in users {
        return Fail(INVALID_USERNAME + username);
      }
      users := users[username := hashFn(password)];
      FlushCache(now);
      s := Pass;
    }

    method DeleteUser(username: string, now: int) returns (s: Status)
      modifies this, file
      ensures modified == old(modified)
      ensures match Deleted(old(users), username)
        case Ok(m) => s == Pass && users == m && file.text == Serialize(m) && file.mtime == now
        case Err(e) => s == Fail(e) && users == old(users) && unchanged(file)
    {
      if username !in users {
        return Fail(INVALID_USERNAME + username);
      }
      users := users - {username};
      FlushCache(now);
      s := Pass;
    }

    /** getConnection: bring the cache up to date, then open a fresh connection on this store. */
    method GetConnection() returns (c: HtPasswdDbConnection)
      modifies this
      ensures fresh(c) && c.db == this && c.Initial()
      ensures file.mtime > old(modified) ==> users == Parse(file.text) && modified == file.mtime
      ensures file.mtime <= old(modified) ==> users == old(users) && modified == old(modified)
    {
      SyncCache();
      c := new HtPasswdDbConnection(this);
    }
  }

  // ------------------------------------------------------------- connection

  /** The query a connection has been prepared with. */
  datatype Verb = Update | Insert | Delete

  /** The field an indexed bind writes; the indices are 0 and 1. */
  datatype Slot = Username | Password

  const USERNAME_IDX: int := 0
  const PASSWORD_IDX: int := 1

  const INVALID_QUERY: string := "Invalid htpasswd query: "
  const NOT_A_STRING: string := "Argument must be of type string."
  const INVALID_INDEX: string := "Invalid Parameter Index: "

  /** The decimal digits a stream writes for n. */
  function Decimal(n: nat): (r: string)
    ensures |r| >= 1 && forall i :: 0 <= i < |r| ==> '0' <= r[i] <= '9'
  {
    var digit := ['0' + (n % 10) as char];
    if n < 10 then digit else Decimal(n / 10) + digit
  }

  /** What an int is streamed as. */
  function IntText(i: int): string {
    if i < 0 then "-" + Decimal(-i) else Decimal(i)
  }

  /** prepare: exactly the three query words are accepted. */
  function PreparedVerb(query: string): (r: Result<Verb>)
    ensures r.Ok? <==> query == "update" || query == "insert" || query == "delete"
    ensures r == Ok(Update) <==> query == "update"
    ensures r == Ok(Insert) <==> query == "insert"
    ensures r == Ok(Delete) <==> query == "delete"
    ensures r.Err? ==> r.message == INVALID_QUERY + query
  {
    if query == "update" then Ok(Update)
    else if query == "insert" then Ok(Insert)
    else if query == "delete" then Ok(Delete)
    else Err(INVALID_QUERY + query)
  }

  /** bind(idx, value): the type is checked before the index. */
  function BoundSlot(idx: int, value: Value): (r: Result<Slot>)
    ensures !value.String? ==> r == Err(NOT_A_STRING)
    ensures value.String? ==> (r == Ok(Username) <==> idx == USERNAME_IDX)
    ensures value.String? ==> (r == Ok(Password) <==> idx == PASSWORD_IDX)
    ensures value.String? && idx != USERNAME_IDX && idx != PASSWORD_IDX ==> r == Err(INVALID_INDEX + IntText(idx))
  {
    if !value.String? then Err(NOT_A_STRING)
    else if idx == USERNAME_IDX then Ok(Username)
    else if idx == PASSWORD_IDX then Ok(Password)
    else Err(INVALID_INDEX + IntText(idx))
  }

  /**
   * bind(name, value) tests compare() for truth, that is for inequality:
   * every name except "username" binds the username, and "username" binds
   * the password.
   */
  function NamedIndex(name: string): (idx: int)
    ensures idx == PASSWORD_IDX <==> name == "username"
    ensures idx == USERNAME_IDX <==> name != "username"
  {
    if name != "username" then USERNAME_IDX
    else if name != "password" then PASSWORD_IDX
    else assert false; -1
  }

  /** What execute does to the user map for a prepared verb. */
  function Applied(verb: Verb, users: UserMap, username: string, password: string, hashFn: string -> string): Result<UserMap> {
    match verb
    case Update => Updated(users, username, password, hashFn)
    case Insert => Inserted(users, username, password, hashFn)
    case Delete => Deleted(users, username)
  }

  /** A delete never looks at the bound password. */
  lemma DeleteIgnoresPassword(users: UserMap, username: string, p: string, q: string, hashFn: string -> string)
    ensures Applied(Delete, users, username, p, hashFn) == Applied(Delete, users, username, q, hashFn)
    ensures Applied(Delete, users, username, p, hashFn) == Deleted(users, username)
  {
  }

  /** HtPasswdDbConnection: a query verb and two string slots, filled by bind. */
  class HtPasswdDbConnection {
    var bindIndex: int
    /** None until prepare succeeds (the source leaves the field uninitialised). */
    var query: Option<Verb>
    var username: string
    var password: string
    const db: HtPasswdDb

    predicate Initial()
      reads this
    {
      bindIndex == 0 && query == None && username == "" && password == ""
    }

    constructor (db: HtPasswdDb)
      ensures this.db == db && Initial()
    {
      bindIndex := 0;
      query := None;
      username := "";
      password := "";
      this.db := db;
    }

    method Prepare(q: string) returns (s: Status)
      modifies this
      ensures bindIndex == old(bindIndex) && username == old(username) && password == old(password)
      ensures match PreparedVerb(q)
        case Ok(v) => s == Pass && query == Some(v)
        case Err(e) => s == Fail(e) && query == old(query)
    {
      if q == "update" {
        query := Some(Update);
      } else if q == "insert" {
        query := Some(Insert);
      } else if q == "delete" {
        query := Some(Delete);
      } else {
        return Fail(INVALID_QUERY + q);
      }
      s := Pass;
    }

    /** The private indexed bind. */
    method BindIndex(idx: int, value: Value) returns (s: Status)
      modifies this
      ensures bindIndex == old(bindIndex) && query == old(query)
      ensures match BoundSlot(idx, value)
        case Ok(Username) => s == Pass && username == CString(value.s) && password == old(password)
        case Ok(Password) => s == Pass && password == CString(value.s) && username == old(username)
        case Err(e) => s == Fail(e) && username == old(username) && password == old(password)
    {
      if !value.String? {
        return Fail(NOT_A_STRING);
      }
      if idx == USERNAME_IDX {
        username := AsString(value).value;
      } else if idx == PASSWORD_IDX {
        password := AsString(value).value;
      } else {
        return Fail(INVALID_INDEX + IntText(idx));
      }
      s := Pass;
    }

    /** Positional bind: binds index bindIndex + 1, and counts only a bind that succeeded. */
    method Bind(value: Value) returns (s: Status)
      modifies this
      ensures query == old(query)
      ensures match BoundSlot(old(bindIndex) + 1, value)
        case Ok(Username) => s == Pass && username == CString(value.s) && password == old(password)
        case Ok(Password) => s == Pass && password == CString(value.s) && username == old(username)
        case Err(e) => s == Fail(e) && username == old(username) && password == old(password)
      ensures bindIndex == if s.Pass? then old(bindIndex) + 1 else old(bindIndex)
    {
      s := BindIndex(bindIndex + 1, value);
      if s.Pass? {
        bindIndex := bindIndex + 1;
      }
    }

    method BindNamed(name: string, value: Value) returns (s: Status)
      modifies this
      ensures bindIndex == old(bindIndex) && query == old(query)
      ensures match BoundSlot(NamedIndex(name), value)
        case Ok(Username) => s == Pass && username == CString(value.s) && password == old(password)
        case Ok(Password) => s == Pass && password == CString(value.s) && username == old(username)
        case Err(e) => s == Fail(e) && username == old(username) && password == old(password)
    {
      if name != "username" {
        s := BindIndex(USERNAME_IDX, value);
      } else if name != "password" {
        s := BindIndex(PASSWORD_IDX, value);
      } else {
        assert false;
      }
    }

    /** execute: apply the prepared verb to the store and answer an empty array. */
    method Execute(now: int) returns (r: Result<Value>)
      requires query.Some?
      modifies db, db.file
      ensures db.modified == old(db.modified)
      ensures match Applied(query.value, old(db.users), username, password, db.hashFn)
        case Ok(m) => r == Ok(Array([])) && db.users == m && db.file.text == Serialize(m) && db.file.mtime == now
        case Err(e) => r == Err(e) && db.users == old(db.users) && unchanged(db.file)
    {
      var s;
      match query.value {
        case Update => s := db.UpdateUser(username, password, now);
        case Insert => s := db.InsertUser(username, password, now);
        case Delete => s := db.DeleteUser(username, now);
      }
      if s.Fail? {
        return Err(s.message);
      }
      r := Ok(Array([]));
    }
  }

  /**
   * Binds on a fresh connection.  The first positional value lands in the
   * password and the second is refused with index 2, without counting; a
   * value bound by the name "password" lands in the username.
   */
  method ExampleBinds(db: HtPasswdDb) returns (first: Status, second: Status, username: string, password: string, bindIndex: int)
    ensures first == Pass && second == Fail("Invalid Parameter Index: 2")
    ensures username == "p" && password == "a" && bindIndex == 1
  {
    var c := new HtPasswdDbConnection(db);
    first := c.Bind(String("a"));
    second := c.Bind(String("b"));
    var named := c.BindNamed("password", String("p"));
    username, password, bindIndex := c.username, c.password, c.bindIndex;
  }

  // ------------------------------------------------------------------ create

  datatype Algorithm = Crypt | Md5 | Sh1

  function AlgorithmNamed(name: string): (r: Result<Algorithm>)
    ensures r.Ok? <==> name == "crypt" || name == "md5" || name == "sh1"
    ensures r.Err? ==> r.message == "Invalid algorithm: " + name
  {
    if name == "crypt" then Ok(Crypt)
    else if name == "md5" then Ok(Md5)
    else if name == "sh1" then Ok(Sh1)
    else Err("Invalid algorithm: " + name)
  }

  /**
   * The checks Create makes before it builds a store, and the file name the
   * store is built on.  The algorithm is checked and then not used.
   */
  function CreateSettings(root: Value): Result<string>
    requires IsObject(root)
  {
    var dbFile :- AsString(Member(root, "filename"));
    var algo :- AsString(GetOr(root, "algorithm", String("crypt")));
    var algorithm :- AlgorithmNamed(algo);
    Ok(dbFile)
  }

  /** Create accepts a missing algorithm (it defaults to crypt) and exactly crypt, md5 and sh1. */
  lemma CreateChecks(root: Value)
    requires IsObject(root)
    ensures var name := AsString(Member(root, "filename"));
      var algo := AsString(GetOr(root, "algorithm", String("crypt")));
      CreateSettings(root).Ok? <==> name.Ok? && algo.Ok? && algo.value in ["crypt", "md5", "sh1"]
    ensures CreateSettings(root).Ok? ==> AsString(Member(root, "filename")) == Ok(CreateSettings(root).value)
    ensures !HasMember(root, "algorithm") && AsString(Member(root, "filename")).Ok? ==> CreateSettings(root).Ok?
    ensures var algo := AsString(GetOr(root, "algorithm", String("crypt")));
      AsString(Member(root, "filename")).Ok? && algo.Ok? && algo.value !in ["crypt", "md5", "sh1"] ==>
        CreateSettings(root) == Err("Invalid algorithm: " + algo.value)
  {
  }

  /** Two roots that name the same file and any accepted algorithm give the same store. */
  lemma CreateIgnoresAlgorithm(root: Value, other: Value)
    requires IsObject(root) && IsObject(other)
    requires Member(root, "filename") == Member(other, "filename")
    requires CreateSettings(root).Ok? && CreateSettings(other).Ok?
    ensures CreateSettings(root) == CreateSettings(other)
  {
  }

  /** HtPasswdDb::Create, given the file the configured name refers to and crypt(3). */
  method Create(root: Value, file: TextFile, crypt: (string, string) -> string) returns (r: Result<HtPasswdDb>)
    requires IsObject(root)
    ensures r.Err? <==> CreateSettings(root).Err?
    ensures r.Err? ==> r.message == CreateSettings(root).message
    ensures r.Ok? ==> fresh(r.value) && r.value.dbFile == CreateSettings(root).value
    ensures r.Ok? ==> r.value.file == file && r.value.hashFn == HashCrypt(crypt)
    ensures r.Ok? && file.mtime > 0 ==> r.value.users == Parse(file.text)
  {
    var settings := CreateSettings(root);
    if settings.Err? {
      return Err(settings.message);
    }
    var db := new HtPasswdDb(settings.value, file, HashCrypt(crypt));
    r := Ok(db);
  }

  /** The store file as the backend's tests leave it after each step. */
  lemma ExampleSingleEntry(user: string, hash: string)
    ensures Serialize(map[user := hash]) == Entry(user, hash)
  {
    var users := map[user := hash];
    var keys := SortedKeys(users);
    assert keys[0] in users;
    assert keys == [user];
    assert keys[1..] == [];
    assert SerializeKeys(users, keys) == Entry(user, hash) + SerializeKeys(users, []);
  }

  lemma ParseSingleEntry(user: string, hash: string)
    requires ':' !in user && '\n' !in user && '\n' !in hash
    ensures Parse(Entry(user, hash)) == map[user := hash]
  {
    ExampleSingleEntry(user, hash);
    ParseSerialize(map[user := hash]);
  }

  /*
   * The insert, update and delete steps the backend's tests run, each on a
   * new store over the same file, so that every store reads back what the
   * previous one wrote.
   */

  /** A store over a file that was never written gets "username" inserted. */
  method ExampleInsert(file: TextFile, crypt: (string, string) -> string, now: int) returns (s: Status)
    requires file.mtime <= 0
    modifies file
    ensures s == Pass
    ensures file.text == Entry("username", crypt("changeme", CRYPT_SALT)) && file.mtime == now
  {
    var db := new HtPasswdDb("minibar_test.htpasswd", file, HashCrypt(crypt));
    s := db.InsertUser("username", "changeme", now);
    ExampleSingleEntry("username", crypt("changeme", CRYPT_SALT));
  }

  /** The next store reads the inserted entry back and updates it. */
  method ExampleUpdate(file: TextFile, crypt: (string, string) -> string, hash: string, now: int) returns (s: Status)
    requires '\n' !in hash && file.mtime > 0
    requires file.text == Entry("username", hash)
    modifies file
    ensures s == Pass
    ensures file.text == Entry("username", crypt("password", CRYPT_SALT)) && file.mtime == now
  {
    ParseSingleEntry("username", hash);
    var db := new HtPasswdDb("minibar_test.htpasswd", file, HashCrypt(crypt));
    assert db.users == map["username" := hash];
    var updated := map["username" := crypt("password", CRYPT_SALT)];
    assert db.users["username" := HashCrypt(crypt)("password")] == updated;
    s := db.UpdateUser("username", "password", now);
    ExampleSingleEntry("username", crypt("password", CRYPT_SALT));
  }

  /** The last store reads the updated entry back and deletes it, leaving an empty file. */
  method ExampleDelete(file: TextFile, crypt: (string, string) -> string, hash: string, now: int) returns (s: Status)
    requires '\n' !in hash && file.mtime > 0
    requires file.text == Entry("username", hash)
    modifies file
    ensures s == Pass
    ensures file.text == "" && file.mtime == now
  {
    ParseSingleEntry("username", hash);
    var db := new HtPasswdDb("minibar_test.htpasswd", file, HashCrypt(crypt));
    s := db.DeleteUser("username", now);
  }

  method ExampleInsertUpdateDelete(file: TextFile, crypt: (string, string) -> string)
    requires forall p :: '\n' !in crypt(p, CRYPT_SALT)
    requires file.mtime <= 0
    modifies file
    ensures file.text == ""
  {
    var s := ExampleInsert(file, crypt, 1);
    s := ExampleUpdate(file, crypt, crypt("changeme", CRYPT_SALT), 2);
    s := ExampleDelete(file, crypt, crypt("password", CRYPT_SALT), 3);
  }
}
