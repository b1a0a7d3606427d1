/** The migration list BasicTables (migrations/sqltables/tables.go). */
module Schema {

  datatype FieldMigration = FieldMigration(fieldName: string, fieldType: string, notNull: bool, primaryKey: bool)

  datatype IndexMigration = IndexMigration(indexName: string, field: string)

  datatype TableMigration = TableMigration(
    tableName: string,
    timestamped: bool,
    indexes: seq<IndexMigration>,
    fields: seq<FieldMigration>)
  {
    predicate HasField(name: string) {
      exists i :: 0 <= i < |fields| && fields[i].fieldName == name
    }
  }

  /**
    The three migrations, profiles, sessions and users, with their table names given
    by the feed namer `names.New`.
   */
  function BasicTables(namer: string -> string): seq<TableMigration> {
    [
      TableMigration(namer("profiles"), true,
        [IndexMigration("user_id", "user_id")],
        [FieldMigration("user_id", "VARCHAR(255)", true, false),
         FieldMigration("address", "text", true, false),
         FieldMigration("public_id", "VARCHAR(255)", true, true),
         FieldMigration("first_name", "VARCHAR(255)", true, false),
         FieldMigration("last_name", "VARCHAR(255)", true, false)]),
      TableMigration(namer("sessions"), true,
        [IndexMigration("user_id", "user_id")],
        [FieldMigration("user_id", "VARCHAR(255)", true, false),
         FieldMigration("token", "VARCHAR(255)", true, false),
         FieldMigration("public_id", "VARCHAR(255)", true, true),
         FieldMigration("expires", "timestamp", true, false)]),
      TableMigration(namer("users"), true,
        [],
        [FieldMigration("email", "VARCHAR(255)", true, false),
         FieldMigration("public_id", "VARCHAR(255)", true, true),
         FieldMigration("private_id", "VARCHAR(255)", true, false),
         FieldMigration("hash", "VARCHAR(255)", true, false)])
    ]
  }

  /** The single primary key of a table is the field `key`. */
  predicate PrimaryKeyIs(t: TableMigration, key: string) {
    t.HasField(key) &&
    forall i :: 0 <= i < |t.fields| ==> (t.fields[i].primaryKey <==> t.fields[i].fieldName == key)
  }

  /** No two fields of a table share a name. */
  predicate DistinctFields(t: TableMigration) {
    forall i, j :: 0 <= i < j < |t.fields| ==> t.fields[i].fieldName != t.fields[j].fieldName
  }

  /** Every index of a table is over one of its own fields. */
  predicate IndexesDeclared(t: TableMigration) {
    forall i :: 0 <= i < |t.indexes| ==> t.HasField(t.indexes[i].field)
  }

  predicate AllNotNull(t: TableMigration) {
    forall i :: 0 <= i < |t.fields| ==> t.fields[i].notNull
  }

  function FieldNamesOf(t: TableMigration): seq<string> {
    seq(|t.fields|, i requires 0 <= i < |t.fields| => t.fields[i].fieldName)
  }

  /** Exactly three migrations, in the order profiles, sessions, users. */
  lemma BasicTablesOrder(namer: string -> string)
    ensures |BasicTables(namer)| == 3
    ensures BasicTables(namer)[0].tableName == namer("profiles")
    ensures BasicTables(namer)[1].tableName == namer("sessions")
    ensures BasicTables(namer)[2].tableName == namer("users")
  {
  }

  /**
    Every table is timestamped, has `public_id` as its only primary key, declares
    distinct non-null fields, and indexes only its own fields; users has no index.
   */
  lemma BasicTablesWellFormed(namer: string -> string)
    ensures forall t :: t in BasicTables(namer) ==>
              t.timestamped && PrimaryKeyIs(t, "public_id") && DistinctFields(t) &&
              AllNotNull(t) && IndexesDeclared(t)
    ensures BasicTables(namer)[2].indexes == []
  {
    var ts := BasicTables(namer);
    IndexedTableWellFormed(ts[0]);
    IndexedTableWellFormed(ts[1]);
    UsersWellFormed(ts[2]);
  }

  /** The profiles and sessions tables: user_id first, public_id third, one index over user_id. */
  lemma IndexedTableWellFormed(t: TableMigration)
    requires |t.fields| >= 3 && t.fields[0].fieldName == "user_id" && t.fields[2].fieldName == "public_id"
    requires t.indexes == [IndexMigration("user_id", "user_id")]
    requires forall i :: 0 <= i < |t.fields| ==> (t.fields[i].primaryKey <==> i == 2) && t.fields[i].notNull
    requires DistinctFields(t)
    ensures PrimaryKeyIs(t, "public_id") && AllNotNull(t) && IndexesDeclared(t) && DistinctFields(t)
  {
    assert t.HasField("public_id") && t.HasField("user_id") by {
      assert t.fields[2].fieldName == "public_id" && t.fields[0].fieldName == "user_id";
    }
    forall i | 0 <= i < |t.fields|
      ensures t.fields[i].primaryKey <==> t.fields[i].fieldName == "public_id"
    {
      if i != 2 {
        assert t.fields[i].fieldName != t.fields[2].fieldName by {
          if i < 2 {} else {}
        }
      }
    }
  }

  /** The users table: public_id second, no index. */
  lemma UsersWellFormed(t: TableMigration)
    requires |t.fields| >= 2 && t.fields[1].fieldName == "public_id" && t.indexes == []
    requires forall i :: 0 <= i < |t.fields| ==> (t.fields[i].primaryKey <==> i == 1) && t.fields[i].notNull
    requires DistinctFields(t)
    ensures PrimaryKeyIs(t, "public_id") && AllNotNull(t) && IndexesDeclared(t)
  {
    assert t.fields[1].fieldName == "public_id";
    forall i | 0 <= i < |t.fields|
      ensures t.fields[i].primaryKey <==> t.fields[i].fieldName == "public_id"
    {
      if i != 1 {
        assert t.fields[i].fieldName != t.fields[1].fieldName by {
          if i < 1 {} else {}
        }
      }
    }
  }

  /** The sessions table's fields are exactly user_id, token, public_id and expires, in that order. */
  lemma SessionsFields(namer: string -> string)
    ensures FieldNamesOf(BasicTables(namer)[1]) == ["user_id", "token", "public_id", "expires"]
  {
  }
}
