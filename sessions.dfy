/**
  The session handler of handlers/sessions.go: sessions kept in one table of the SQL
  engine, addressed by the user they belong to. Create reuses a live session, drops a
  stale one, and otherwise mints and saves a new one.
 */
module Sessions {
  import opened Wrappers
  import opened Values
  import opened Literal
  import opened Query
  import opened Store
  import opened Engine
  import opened EngineProps

  /** session.UniqueIndex: sessions are looked up and removed by the user they belong to. */
  const UniqueIndex := "user_id"

  datatype Session = Session(userID: string, publicID: string, token: string, expires: Time)

  /** Session.Fields(): the columns of the sessions table. */
  function SessionFields(s: Session): Record {
    map["user_id" := VString(s.userID), "token" := VString(s.token),
        "public_id" := VString(s.publicID), "expires" := VTime(s.expires)]
  }

  /**
    Session.WithFields: reads the four columns back, ignoring any other field (the
    timestamps the engine adds); a missing column or one of another kind fails.
   */
  function DecodeSession(r: Record): Result<Session> {
    if "user_id" in r && r["user_id"].VString? && "token" in r && r["token"].VString? &&
       "public_id" in r && r["public_id"].VString? && "expires" in r && r["expires"].VTime?
    then Ok(Session(r["user_id"].s, r["public_id"].s, r["token"].s, r["expires"].t))
    else Err(Foreign("session: malformed record"))
  }

  /** A session whose expiry is set and still ahead. */
  predicate Live(s: Session, now: Time) {
    !s.expires.IsZero() && now.Before(s.expires)
  }

  /** A session with no expiry, or one that is past. */
  predicate Stale(s: Session, now: Time) {
    s.expires.IsZero() || now.After(s.expires)
  }

  /**
    What Create draws from outside: the clock read it compares expiries with, the
    clock read session.New starts the new expiry from, the public id and token
    session.New generates, and the two clock reads of Save.
   */
  datatype Draws = Draws(now: Time, later: Time, publicID: string, token: string, createdAt: Time, updatedAt: Time)

  /** session.New(userID, later.Add(expiration)). */
  function Minted(userID: string, expiration: int, d: Draws): Session {
    Session(userID, d.publicID, d.token, d.later.Add(expiration))
  }

  /** The Get of Sessions.Get and of Create: the engine's Get, then WithFields on the row it gives. */
  function GetSessionSpec(c: Config, e: EngineState, table: string, userID: string): (EngineState, Result<Session>)
    requires c.hasProvider
  {
    var g := GetSpec(c, e, table, UniqueIndex, VString(userID));
    match g.1
    case Err(x) => (g.0, Err(x))
    case Ok(rec) => (g.0, DecodeSession(rec))
  }

  /** The DELETE of Create when the session it found is stale; Pass when there is nothing to drop. */
  function DropStaleSpec(c: Config, e: EngineState, table: string, userID: string, found: Result<Session>, now: Time): (EngineState, Outcome)
    requires c.hasProvider
  {
    if found.Ok? && Stale(found.value, now) then DeleteSpec(c, e, table, UniqueIndex, VString(userID))
    else (e, Pass)
  }

  /** Create; `names` is the order fieldNames lists the new session's fields in. */
  function CreateSpec(c: Config, e: EngineState, table: string, expiration: int, userID: string,
                      d: Draws, names: seq<string>): (EngineState, Result<Session>)
    requires c.hasProvider
  {
    var g := GetSessionSpec(c, e, table, userID);
    if g.1.Ok? && Live(g.1.value, d.now) then g
    else
      var dropped := DropStaleSpec(c, g.0, table, userID, g.1, d.now);
      if dropped.1.Fail? then (dropped.0, Err(dropped.1.error))
      else SaveSessionSpec(c, dropped.0, table, Minted(userID, expiration, d), names, d.createdAt, d.updatedAt)
  }

  /** The last step of Create: saves the minted session and returns it, or the error of the save. */
  function SaveSessionSpec(c: Config, e: EngineState, table: string, s: Session, names: seq<string>,
                           createdAt: Time, updatedAt: Time): (EngineState, Result<Session>)
    requires c.hasProvider
  {
    var saved := SaveSpec(c, e, table, SessionFields(s), names, createdAt, updatedAt);
    if saved.1.Fail? then (saved.0, Err(saved.1.error)) else (saved.0, Ok(s))
  }

  /** SessionRecords. */
  datatype SessionRecords = SessionRecords(total: int, page: int, responsePerPage: int, records: seq<Session>)

  /** GetAll: one page in ascending public_id order, every record decoded. */
  function ListSpec(c: Config, e: EngineState, table: string, page: int, perPage: int): (EngineState, Result<SessionRecords>)
    requires c.hasProvider
  {
    var p := GetAllPerPageSpec(c, e, table, "asc", "public_id", page, perPage);
    if p.1.err.Fail? then (p.0, Err(p.1.err.error))
    else match DecodeAll(p.1.records, DecodeSession)
      case Err(x) => (p.0, Err(x))
      case Ok(list) => (p.0, Ok(SessionRecords(p.1.total, page, perPage, list)))
  }

  // ---------------------------------------------------------------------------
  // The handler

  /** The Sessions struct: the engine, the sessions table and the lifetime of a new session. */
  class Sessions {
    const db: SQL
    const table: string
    const expiration: int

    constructor (db: SQL, table: string, expiration: int)
      ensures this.db == db && this.table == table && this.expiration == expiration
    {
      this.db := db;
      this.table := table;
      this.expiration := expiration;
    }

    /** Create. The order fieldNames listed the new session's fields in is returned as `names`. */
    method Create(userID: string, d: Draws) returns (r: Result<Session>, ghost names: seq<string>)
      requires db.hasProvider
      modifies db
      ensures Enumerates(names, SessionFields(Minted(userID, expiration, d)).Keys)
      ensures (db.State(), r) == CreateSpec(db.Cfg(), old(db.State()), table, expiration, userID, d, names)
    {
      names := Enumeration(SessionFields(Minted(userID, expiration, d)).Keys);
      var row := db.Get(table, UniqueIndex, VString(userID));
      var found := if row.Ok? then DecodeSession(row.value) else Err(row.error);
      if found.Ok? {
        if !found.value.expires.IsZero() && d.now.Before(found.value.expires) {
          return found, names;
        }
        if found.value.expires.IsZero() || d.now.After(found.value.expires) {
          var err := db.Delete(table, UniqueIndex, VString(userID));
          if err.Fail? {
            return Err(err.error), names;
          }
        }
      }
      var minted := Session(userID, d.publicID, d.token, d.later.Add(expiration));
      var err;
      err, names := db.Save(table, SessionFields(minted), d.createdAt, d.updatedAt);
      if err.Fail? {
        return Err(err.error), names;
      }
      return Ok(minted), names;
    }

    method Get(userID: string) returns (r: Result<Session>)
      requires db.hasProvider
      modifies db
      ensures (db.State(), r) == GetSessionSpec(db.Cfg(), old(db.State()), table, userID)
    {
      var row := db.Get(table, UniqueIndex, VString(userID));
      if row.Err? {
        return Err(row.error);
      }
      r := DecodeSession(row.value);
    }

    method Delete(userID: string) returns (err: Outcome)
      requires db.hasProvider
      modifies db
      ensures (db.State(), err) == DeleteSpec(db.Cfg(), old(db.State()), table, UniqueIndex, VString(userID))
    {
      err := db.Delete(table, UniqueIndex, VString(userID));
    }

    method GetAll(page: int, perPage: int) returns (r: Result<SessionRecords>)
      requires db.hasProvider
      modifies db
      ensures (db.State(), r) == ListSpec(db.Cfg(), old(db.State()), table, page, perPage)
    {
      var p := db.GetAllPerPage(table, "asc", "public_id", page, perPage);
      if p.err.Fail? {
        return Err(p.err.error);
      }
      var list := DecodeEach(p.records, DecodeSession);
      if list.Err? {
        return Err(list.error);
      }
      return Ok(SessionRecords(p.total, page, perPage, list.value));
    }
  }
}
