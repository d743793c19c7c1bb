/**
 * The backend registry: a database section of the configuration names its
 * backend by "type", and the factory registered under that name builds the
 * backend from the whole section.
 */
module Database {
  import opened Errors
  import opened Json
  import Htpasswd

  /**
   * What a factory builds, as the rest of the core sees it: an htpasswd
   * store on a file name, or a sqlite database built from its section.
   */
  datatype Backend =
    | HtPasswd(dbFile: string)
    | Sqlite(section: Value)

  /** The names registered with REGISTER_DB. */
  const REGISTRY: set<string> := {"htpasswd", "sqlite"}

  const UNSUPPORTED: string := "Database type is not supported"

  /** The registered factory for a name, applied to the whole section. */
  function Construct(kind: string, section: Value): Result<Backend>
    requires kind in REGISTRY && IsObject(section)
  {
    if kind == "htpasswd" then
      var dbFile :- Htpasswd.CreateSettings(section);
      Ok(HtPasswd(dbFile))
    else
      Ok(Sqlite(section))
  }

  /** Database::FactoryCreate. */
  function FactoryCreate(section: Value): (r: Result<Backend>)
    requires IsObject(section)
    ensures AsString(Member(section, "type")).Err? ==> r == Err(AsString(Member(section, "type")).message)
    ensures AsString(Member(section, "type")).Ok? && AsString(Member(section, "type")).value !in REGISTRY ==>
      r == Err(UNSUPPORTED)
  {
    var kind :- AsString(Member(section, "type"));
    if kind !in REGISTRY then Err(UNSUPPORTED)
    else Construct(kind, section)
  }

  /** Without a "type" the backend name is "", which is not registered. */
  lemma MissingTypeUnsupported(section: Value)
    requires IsObject(section) && !HasMember(section, "type")
    ensures FactoryCreate(section) == Err(UNSUPPORTED)
  {
  }

  /**
   * A registered name hands the whole section to its factory and returns what
   * the factory returns; the other members of the section reach the factory
   * untouched.
   */
  lemma RegisteredFactoryGetsSection(section: Value)
    requires IsObject(section)
    ensures Member(section, "type") == String("sqlite") ==> FactoryCreate(section) == Ok(Sqlite(section))
    ensures Member(section, "type") == String("htpasswd") ==>
      match Htpasswd.CreateSettings(section)
      case Ok(dbFile) => FactoryCreate(section) == Ok(HtPasswd(dbFile))
      case Err(e) => FactoryCreate(section) == Err(e)
  {
    var t := Member(section, "type");
    if t == String("sqlite") {
      RegisteredName(section, "sqlite");
    } else if t == String("htpasswd") {
      RegisteredName(section, "htpasswd");
    }
  }

  /** A registered name without a NUL selects its factory. */
  lemma RegisteredName(section: Value, name: string)
    requires IsObject(section) && Member(section, "type") == String(name)
    requires name in REGISTRY && '\0' !in name
    ensures FactoryCreate(section) == Construct(name, section)
  {
    assert AsString(Member(section, "type")) == Ok(name);
  }

  /** The outcome depends only on the type name and on what that factory reads. */
  lemma FactoryCreateSucceeds(section: Value)
    requires IsObject(section)
    ensures FactoryCreate(section).Ok? <==>
      var kind := AsString(Member(section, "type"));
      kind.Ok? && (kind.value == "sqlite" || (kind.value == "htpasswd" && Htpasswd.CreateSettings(section).Ok?))
  {
  }
}
