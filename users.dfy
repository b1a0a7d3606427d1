/**
  The user handler of handlers/users.go: users kept in one table of the SQL engine,
  addressed by public id (or email), with an optional Profiles handler that is
  consulted after the user table.
 */
module Users {
  import opened Wrappers
  import opened Values
  import opened Query
  import opened Engine
  import opened Profiles

  /** The key users are addressed by. */
  const PublicID := "public_id"

  datatype User = User(publicID: string, privateID: string, email: string, hash: string, profile: Option<Profile>)

  /** User.Fields(): the columns of the users table. */
  function UserFields(u: User): Record {
    map["public_id" := VString(u.publicID), "private_id" := VString(u.privateID),
        "email" := VString(u.email), "hash" := VString(u.hash)]
  }

  /** User.WithFields: reads the four columns back, ignoring any other field; the profile is left unset. */
  function DecodeUser(r: Record): Result<User> {
    if "public_id" in r && r["public_id"].VString? && "private_id" in r && r["private_id"].VString? &&
       "email" in r && r["email"].VString? && "hash" in r && r["hash"].VString?
    then Ok(User(r["public_id"].s, r["private_id"].s, r["email"].s, r["hash"].s, None))
    else Err(Foreign("user: malformed record"))
  }

  /** The body of an update request. */
  datatype UpdateUser = UpdateUser(publicID: string, email: string)

  /** UpdateUser.Fields(). */
  function UpdateUserFields(nw: UpdateUser): Record {
    map["public_id" := VString(nw.publicID), "email" := VString(nw.email)]
  }

  /** The body of a password change request. */
  datatype UpdateUserPassword = UpdateUserPassword(publicID: string, password: string)

  /** What the handler acts on: the engine's state, and the profile store when Profiles is set. */
  datatype UsersState = UsersState(engine: EngineState, book: Option<ProfileBook>)

  /** UserRecords. */
  datatype UserRecords = UserRecords(total: int, page: int, responsePerPage: int, records: seq<User>)

  /** Delete: the user's row first, then, when Profiles is set, the user's profile. */
  function DeleteUserSpec(c: Config, s: UsersState, table: string, id: string): (UsersState, Outcome)
    requires c.hasProvider
  {
    var d := DeleteSpec(c, s.engine, table, PublicID, VString(id));
    if d.1.Fail? then (s.(engine := d.0), d.1)
    else match s.book
      case None => (s.(engine := d.0), Pass)
      case Some(b) =>
        var p := DeleteByUserSpec(b, id);
        (UsersState(d.0, Some(p.0)), p.1)
  }

  /**
    Get (by public_id) and GetByEmail (by email): the user's row, decoded; then,
    when Profiles is set, the profile of the user found, whose failure fails the call.
   */
  function LookupSpec(c: Config, s: UsersState, table: string, index: string, key: string): (UsersState, Result<User>)
    requires c.hasProvider
  {
    var g := GetSpec(c, s.engine, table, index, VString(key));
    var s1 := s.(engine := g.0);
    if g.1.Err? then (s1, Err(g.1.error))
    else match DecodeUser(g.1.value)
      case Err(x) => (s1, Err(x))
      case Ok(nu) => WithProfileSpec(s1, nu)
  }

  /** Fills in the profile of a user found, when Profiles is set. */
  function WithProfileSpec(s: UsersState, nu: User): (UsersState, Result<User>) {
    match s.book
    case None => (s, Ok(nu))
    case Some(b) =>
      var p := GetByUserSpec(b, nu.publicID);
      var s1 := s.(book := Some(p.0));
      match p.1
      case Err(x) => (s1, Err(x))
      case Ok(pr) => (s1, Ok(nu.(profile := Some(pr))))
  }

  /** GetAll: one page in ascending public_id order, every record decoded. */
  function ListSpec(c: Config, s: UsersState, table: string, page: int, perPage: int): (UsersState, Result<UserRecords>)
    requires c.hasProvider
  {
    var p := GetAllPerPageSpec(c, s.engine, table, "asc", PublicID, page, perPage);
    var s1 := s.(engine := p.0);
    if p.1.err.Fail? then (s1, Err(p.1.err.error))
    else match DecodeAll(p.1.records, DecodeUser)
      case Err(x) => (s1, Err(x))
      case Ok(list) => (s1, Ok(UserRecords(p.1.total, page, perPage, list)))
  }

  /**
    Create. `made` is what user.New gave for the request, `names` the order
    fieldNames lists the user's fields in, `createdAt` and `updatedAt` Save's clock
    reads, and `profileID` the public id Profiles.Create generates.
   */
  function CreateUserSpec(c: Config, s: UsersState, table: string, made: Result<User>, names: seq<string>,
                          createdAt: Time, updatedAt: Time, profileID: string): (UsersState, Result<User>)
    requires c.hasProvider
  {
    match made
    case Err(x) => (s, Err(x))
    case Ok(nu) =>
      var saved := SaveSpec(c, s.engine, table, UserFields(nu), names, createdAt, updatedAt);
      var s1 := s.(engine := saved.0);
      if saved.1.Fail? then (s1, Err(saved.1.error))
      else AddProfileSpec(s1, nu, profileID)
  }

  /** The last step of Create: when Profiles is set, a profile for the user just saved, whose failure fails the call. */
  function AddProfileSpec(s: UsersState, nu: User, profileID: string): (UsersState, Result<User>) {
    match s.book
    case None => (s, Ok(nu))
    case Some(b) =>
      var p := CreateProfileSpec(b, nu.publicID, profileID);
      var s1 := s.(book := Some(p.0));
      match p.1
      case Err(x) => (s1, Err(x))
      case Ok(pr) => (s1, Ok(nu.(profile := Some(pr))))
  }

  /**
    The user a password change writes back: the row found, decoded, with the
    password changed by `change` (User.ChangePassword); or the first error.
   */
  function ChangeFound(found: Result<Record>, password: string, change: (User, string) -> Result<User>): Result<User> {
    match found
    case Err(x) => Err(x)
    case Ok(rec) =>
      match DecodeUser(rec)
      case Err(x) => Err(x)
      case Ok(dbUser) => change(dbUser, password)
  }

  /**
    UpdatePassword: refuses an empty public id, then an empty password; otherwise
    gets the user by public_id, changes the password, and updates the user by
    public_id. `now` is Update's clock read and `order` the order setValues walks
    the assignments in.
   */
  function UpdatePasswordSpec(c: Config, s: UsersState, table: string, nw: UpdateUserPassword,
                              change: (User, string) -> Result<User>, now: Time, order: seq<string>): (UsersState, Outcome)
    requires c.hasProvider
  {
    if nw.publicID == "" then (s, Fail(EmptyField("UpdateUserPassword.PublicID")))
    else if nw.password == "" then (s, Fail(EmptyField("UpdateUserPassword.Password")))
    else
      var g := GetSpec(c, s.engine, table, PublicID, VString(nw.publicID));
      match ChangeFound(g.1, nw.password, change)
      case Err(x) => (s.(engine := g.0), Fail(x))
      case Ok(changed) =>
        var u := UpdateSpec(c, g.0, table, UserFields(changed), PublicID, now, order);
        (s.(engine := u.0), u.1)
  }

  /** Update: refuses an empty public id, and otherwise is the engine's Update by public_id. */
  function UpdateUserSpec(c: Config, s: UsersState, table: string, nw: UpdateUser, now: Time, order: seq<string>): (UsersState, Outcome)
    requires c.hasProvider
  {
    if nw.publicID == "" then (s, Fail(EmptyField("User.PublicID")))
    else
      var u := UpdateSpec(c, s.engine, table, UpdateUserFields(nw), PublicID, now, order);
      (s.(engine := u.0), u.1)
  }

  // ---------------------------------------------------------------------------
  // The handler

  /** The Users struct: the engine, the users table, and the Profiles handler, which may be nil. */
  class Users {
    const db: SQL
    const profiles: Profiles?
    const table: string

    constructor (db: SQL, profiles: Profiles?, table: string)
      ensures this.db == db && this.profiles == profiles && this.table == table
    {
      this.db := db;
      this.profiles := profiles;
      this.table := table;
    }

    function State(): UsersState
      reads db, profiles
    {
      UsersState(db.State(), if profiles == null then None else Some(profiles.book))
    }

    method Delete(id: string) returns (err: Outcome)
      requires db.hasProvider
      modifies db, profiles
      ensures (State(), err) == DeleteUserSpec(db.Cfg(), old(State()), table, id)
    {
      err := db.Delete(table, PublicID, VString(id));
      if err.Fail? {
        return;
      }
      if profiles != null {
        err := profiles.DeleteByUser(id);
        if err.Fail? {
          return;
        }
      }
      return Pass;
    }

    /** The lookup Get and GetByEmail share. */
    method Lookup(index: string, key: string) returns (r: Result<User>)
      requires db.hasProvider
      modifies db, profiles
      ensures (State(), r) == LookupSpec(db.Cfg(), old(State()), table, index, key)
    {
      var row := db.Get(table, index, VString(key));
      if row.Err? {
        return Err(row.error);
      }
      var nu := DecodeUser(row.value);
      if nu.Err? {
        return nu;
      }
      if profiles != null {
        var p := profiles.GetByUser(nu.value.publicID);
        if p.Err? {
          return Err(p.error);
        }
        return Ok(nu.value.(profile := Some(p.value)));
      }
      return nu;
    }

    method Get(id: string) returns (r: Result<User>)
      requires db.hasProvider
      modifies db, profiles
      ensures (State(), r) == LookupSpec(db.Cfg(), old(State()), table, PublicID, id)
    {
      r := Lookup(PublicID, id);
    }

    method GetByEmail(email: string) returns (r: Result<User>)
      requires db.hasProvider
      modifies db, profiles
      ensures (State(), r) == LookupSpec(db.Cfg(), old(State()), table, "email", email)
    {
      r := Lookup("email", email);
    }

    method GetAll(page: int, perPage: int) returns (r: Result<UserRecords>)
      requires db.hasProvider
      modifies db
      ensures (State(), r) == ListSpec(db.Cfg(), old(State()), table, page, perPage)
    {
      var p := db.GetAllPerPage(table, "asc", PublicID, page, perPage);
      if p.err.Fail? {
        return Err(p.err.error);
      }
      var list := DecodeEach(p.records, DecodeUser);
      if list.Err? {
        return Err(list.error);
      }
      return Ok(UserRecords(p.total, page, perPage, list.value));
    }

    /** Create. The order fieldNames listed the user's fields in is returned as `names`. */
    method Create(made: Result<User>, createdAt: Time, updatedAt: Time, profileID: string) returns (r: Result<User>, ghost names: seq<string>)
      requires db.hasProvider
      modifies db, profiles
      ensures made.Ok? ==> Enumerates(names, UserFields(made.value).Keys)
      ensures (State(), r) == CreateUserSpec(db.Cfg(), old(State()), table, made, names, createdAt, updatedAt, profileID)
    {
      names := [];
      if made.Err? {
        return Err(made.error), names;
      }
      var newUser := made.value;
      var err;
      err, names := db.Save(table, UserFields(newUser), createdAt, updatedAt);
      if err.Fail? {
        return Err(err.error), names;
      }
      if profiles != null {
        var p := profiles.Create(newUser.publicID, profileID);
        if p.Err? {
          return Err(p.error), names;
        }
        newUser := newUser.(profile := Some(p.value));
      }
      return Ok(newUser), names;
    }

    /** UpdatePassword. The order setValues walked the assignments in is returned as `order`. */
    method UpdatePassword(nw: UpdateUserPassword, change: (User, string) -> Result<User>, now: Time)
      returns (err: Outcome, ghost order: seq<string>)
      requires db.hasProvider
      modifies db
      ensures (State(), err) == UpdatePasswordSpec(db.Cfg(), old(State()), table, nw, change, now, order)
    {
      order := [];
      if nw.publicID == "" {
        return Fail(EmptyField("UpdateUserPassword.PublicID")), order;
      }
      if nw.password == "" {
        return Fail(EmptyField("UpdateUserPassword.Password")), order;
      }
      var row := db.Get(table, PublicID, VString(nw.publicID));
      if row.Err? {
        return Fail(row.error), order;
      }
      var dbUser := DecodeUser(row.value);
      if dbUser.Err? {
        return Fail(dbUser.error), order;
      }
      var changed := change(dbUser.value, nw.password);
      if changed.Err? {
        return Fail(changed.error), order;
      }
      err, order := db.Update(table, UserFields(changed.value), PublicID, now);
    }

    /** Update. The order setValues walked the assignments in is returned as `order`. */
    method Update(nw: UpdateUser, now: Time) returns (err: Outcome, ghost order: seq<string>)
      requires db.hasProvider
      modifies db
      ensures nw.publicID != "" ==> Enumerates(order, (Stamped(UpdateUserFields(nw), now) - {PublicID}).Keys)
      ensures (State(), err) == UpdateUserSpec(db.Cfg(), old(State()), table, nw, now, order)
    {
      order := [];
      if nw.publicID == "" {
        return Fail(EmptyField("User.PublicID")), order;
      }
      err, order := db.Update(table, UpdateUserFields(nw), PublicID, now);
    }
  }
}
