/**
 * The server's user service over in-memory tables: the `UPDATE users SET …`
 * statement built from a request body, its effect on the users table, and
 * the latest quiz result of a user with its cluster refreshed from the
 * clusters table when possible.
 */
module UserStore {
  import opened Wrappers
  import opened Text
  import opened Arrays
  import ClusterService

  /** A column value as the JSON body and the table hold it. */
  datatype Value = Str(s: string) | Num(n: int) | Null

  /** The columns of the users table, after its migrations. */
  const Columns: set<string> := {"id", "email", "name", "nickname", "bio", "photo", "profileImage",
    "birth_date", "gender", "created_at", "defaultRankingVisibility", "rankingVisibilityLimit"}

  /** The keys an update never writes. */
  const Protected: set<string> := {"id", "email", "created_at"}

  /** One user row: the key columns, and every other column by name (a column absent from the map reads as NULL). */
  datatype UserRow = UserRow(id: nat, email: string, fields: map<string, Value>)

  /** The users table and its AUTOINCREMENT counter. */
  datatype Users = Users(rows: seq<UserRow>, nextId: nat)

  /** Ids come from the counter and are unique; emails are unique (the UNIQUE constraint). */
  predicate ValidUsers(t: Users) {
    && (forall i :: 0 <= i < |t.rows| ==> t.rows[i].id < t.nextId)
    && (forall i, j :: 0 <= i < j < |t.rows| ==> t.rows[i].id != t.rows[j].id && t.rows[i].email != t.rows[j].email)
  }

  /** A JSON object's entries in key order; its keys are distinct. */
  predicate DistinctKeys(data: seq<(string, Value)>) {
    forall i, j :: 0 <= i < j < |data| ==> data[i].0 != data[j].0
  }

  function Settable(): ((string, Value)) -> bool {
    (e: (string, Value)) => e.0 !in Protected
  }

  /** The entries that go into the SET clause, in key order. */
  function Kept(data: seq<(string, Value)>): (kept: seq<(string, Value)>)
    ensures forall i :: 0 <= i < |kept| ==> kept[i].0 !in Protected
    ensures kept == [] <==> forall i :: 0 <= i < |data| ==> data[i].0 in Protected
  {
    KeptEmpty(data);
    Filter(data, Settable())
  }

  lemma KeptEmpty(data: seq<(string, Value)>)
    ensures Filter(data, Settable()) == [] <==> forall i :: 0 <= i < |data| ==> data[i].0 in Protected
  {
    var kept := Filter(data, Settable());
    if kept != [] {
      FilterMember(data, Settable(), kept[0]);
    }
    if exists i :: 0 <= i < |data| && data[i].0 !in Protected {
      var i :| 0 <= i < |data| && data[i].0 !in Protected;
      FilterKeeps(data, Settable(), i);
    }
  }

  /** `parts.join(sep)` for a separator of any length. */
  function JoinWith(parts: seq<string>, sep: string): string {
    if |parts| == 0 then ""
    else if |parts| == 1 then parts[0]
    else parts[0] + sep + JoinWith(parts[1..], sep)
  }

  /** The `k = ?` items of the SET clause. */
  function Assignments(kept: seq<(string, Value)>): (items: seq<string>)
    ensures |items| == |kept|
    ensures forall i :: 0 <= i < |kept| ==> items[i] == kept[i].0 + " = ?"
  {
    seq(|kept|, i requires 0 <= i < |kept| => kept[i].0 + " = ?")
  }

  /**
   * The statement `updateUser` runs, with its bound values, or `None` when
   * no key is left once id, email and created_at are dropped.
   */
  function UpdateStatement(id: nat, data: seq<(string, Value)>): (r: Option<(string, seq<Value>)>)
    ensures r.None? <==> forall i :: 0 <= i < |data| ==> data[i].0 in Protected
    ensures r.Some? ==> var kept := Kept(data);
      && r.value.0 == "UPDATE users SET " + JoinWith(Assignments(kept), ", ") + " WHERE id = ?"
      && |r.value.1| == |kept| + 1
      && (forall i :: 0 <= i < |kept| ==> r.value.1[i] == kept[i].1)
      && r.value.1[|kept|] == Num(id)
  {
    var kept := Kept(data);
    if kept == [] then None
    else
      var values := seq(|kept|, i requires 0 <= i < |kept| => kept[i].1) + [Num(id)];
      Some(("UPDATE users SET " + JoinWith(Assignments(kept), ", ") + " WHERE id = ?", values))
  }

  lemma {:induction false} CountCharJoinWith(parts: seq<string>, sep: string, c: char)
    requires c !in sep
    ensures CountChar(JoinWith(parts, sep), c) == SumCount(parts, c)
  {
    if |parts| == 1 {
      assert parts[1..] == [];
    } else if |parts| > 1 {
      CountCharJoinWith(parts[1..], sep, c);
      CountCharConcat(parts[0], sep, c);
      CountCharConcat(parts[0] + sep, JoinWith(parts[1..], sep), c);
    }
  }

  /** The occurrences of `c` in all the parts. */
  function SumCount(parts: seq<string>, c: char): nat {
    if parts == [] then 0 else CountChar(parts[0], c) + SumCount(parts[1..], c)
  }

  lemma {:induction false} AssignmentsPlaceholders(kept: seq<(string, Value)>)
    requires forall i :: 0 <= i < |kept| ==> '?' !in kept[i].0
    ensures SumCount(Assignments(kept), '?') == |kept|
  {
    if kept != [] {
      AssignmentsPlaceholders(kept[1..]);
      assert Assignments(kept)[1..] == Assignments(kept[1..]);
      CountCharConcat(kept[0].0, " = ?", '?');
      assert CountChar(" = ?", '?') == 1 by {
        assert " = ?" == "" + " = " + ['?'];
        Enclosed("", " = ", "", '?');
      }
    }
  }

  /**
   * When no column name contains '?', the statement has one placeholder per
   * bound value: one per kept key, and the id's last.
   */
  lemma PlaceholdersMatchValues(id: nat, data: seq<(string, Value)>)
    requires forall i :: 0 <= i < |data| ==> '?' !in data[i].0
    requires UpdateStatement(id, data).Some?
    ensures var r := UpdateStatement(id, data).value;
      CountChar(r.0, '?') == |r.1|
  {
    var kept := Kept(data);
    forall i | 0 <= i < |kept|
      ensures '?' !in kept[i].0
    {
      FilterMember(data, Settable(), kept[i]);
    }
    AssignmentsPlaceholders(kept);
    CountCharJoinWith(Assignments(kept), ", ", '?');
    StatementCount(JoinWith(Assignments(kept), ", "));
  }

  lemma StatementCount(clause: string)
    ensures CountChar("UPDATE users SET " + clause + " WHERE id = ?", '?') == CountChar(clause, '?') + 1
  {
    assert " WHERE id = ?" == " WHERE id = " + ['?'];
    Enclosed("UPDATE users SET ", clause, " WHERE id = ", '?');
  }

  /** `c` between a prefix and a suffix that lack it adds exactly the occurrences in the middle and the one at the end. */
  lemma Enclosed(prefix: string, middle: string, suffix: string, c: char)
    requires c !in prefix && c !in suffix
    ensures CountChar(prefix + middle + (suffix + [c]), c) == CountChar(middle, c) + 1
  {
    CountCharConcat(prefix, middle, c);
    CountCharConcat(prefix + middle, suffix + [c], c);
    CountCharConcat(suffix, [c], c);
  }

  // ---------------------------------------------------------------------------
  // The UPDATE statement's effect
  // ---------------------------------------------------------------------------

  /**
   * The column a key names. SQLite matches column names ignoring ASCII case,
   * so "Email" names `email` and "PROFILEIMAGE" names `profileImage`; None
   * when the key names no column.
   */
  function ColumnOf(k: string): (c: Option<string>)
    ensures c.Some? ==> c.value in Columns
  {
    ColumnOfLower(ToLowerAscii(k))
  }

  /** The column whose lower-case spelling is `l`. */
  function ColumnOfLower(l: string): (c: Option<string>)
    ensures c.Some? ==> c.value in Columns
  {
    if l == "id" then Some("id")
    else if l == "email" then Some("email")
    else if l == "name" then Some("name")
    else if l == "nickname" then Some("nickname")
    else if l == "bio" then Some("bio")
    else if l == "photo" then Some("photo")
    else if l == "profileimage" then Some("profileImage")
    else if l == "birth_date" then Some("birth_date")
    else if l == "gender" then Some("gender")
    else if l == "created_at" then Some("created_at")
    else if l == "defaultrankingvisibility" then Some("defaultRankingVisibility")
    else if l == "rankingvisibilitylimit" then Some("rankingVisibilityLimit")
    else None
  }

  /** Only the case of a key matters: lower-casing it first names the same column. */
  lemma ColumnOfIgnoresCase(k: string)
    ensures ColumnOf(ToLowerAscii(k)) == ColumnOf(k)
  {
    LowerTwice(k);
  }

  /** A key names a protected column only when it spells it, up to ASCII case. */
  lemma ProtectedColumnSpelled(k: string)
    ensures ColumnOf(k).Some? && ColumnOf(k).value in Protected ==> ToLowerAscii(k) == ColumnOf(k).value
  {
    var c := ColumnOf(k);
    if c.Some? && c.value in Protected {
      assert c.value == "id" || c.value == "email" || c.value == "created_at";
    }
  }

  /** A settable entry that names column `col`. */
  predicate Names(e: (string, Value), col: string) {
    e.0 !in Protected && ColumnOf(e.0) == Some(col)
  }

  /**
   * The value `SET …` leaves in column `col`: that of the rightmost settable
   * entry naming it (SQLite ignores the earlier ones), None when none does.
   */
  function SetValue(data: seq<(string, Value)>, col: string): Option<Value>
    decreases |data|
  {
    if data == [] then None
    else
      var later := SetValue(data[1..], col);
      if later.Some? then later
      else if Names(data[0], col) then Some(data[0].1)
      else None
  }

  /** No entry names the column exactly when the statement leaves it alone. */
  lemma {:induction false} SetValueNone(data: seq<(string, Value)>, col: string)
    ensures SetValue(data, col).None? <==> forall j :: 0 <= j < |data| ==> !Names(data[j], col)
    decreases |data|
  {
    if data != [] {
      SetValueNone(data[1..], col);
      assert forall j :: 1 <= j < |data| ==> data[1..][j - 1] == data[j];
    }
  }

  /** The rightmost entry naming a column gives it its value. */
  lemma {:induction false} SetValueRightmost(data: seq<(string, Value)>, col: string, j: nat)
    requires j < |data| && Names(data[j], col)
    requires forall k :: j < k < |data| ==> !Names(data[k], col)
    ensures SetValue(data, col) == Some(data[j].1)
    decreases |data|
  {
    if j == 0 {
      SetValueNone(data[1..], col);
      assert forall k :: 0 <= k < |data| - 1 ==> data[1..][k] == data[k + 1];
    } else {
      assert forall k :: j - 1 < k < |data| - 1 ==> data[1..][k] == data[k + 1];
      SetValueRightmost(data[1..], col, j - 1);
    }
  }

  /**
   * The row's other columns after the SET, assigned left to right: each
   * settable entry that names a column other than id and email writes it.
   */
  function SetFields(fields: map<string, Value>, data: seq<(string, Value)>): map<string, Value>
    decreases |data|
  {
    if data == [] then fields
    else
      var c := ColumnOf(data[0].0);
      if data[0].0 in Protected || c.None? || c.value == "id" || c.value == "email" then SetFields(fields, data[1..])
      else SetFields(fields[c.value := data[0].1], data[1..])
  }

  /**
   * Assigning left to right agrees with "the rightmost entry wins": a named
   * column holds its rightmost value and every other column keeps its own.
   */
  lemma {:induction false} SetFieldsReads(fields: map<string, Value>, data: seq<(string, Value)>, col: string)
    requires col != "id" && col != "email"
    ensures SetValue(data, col).Some? ==> col in SetFields(fields, data) && SetFields(fields, data)[col] == SetValue(data, col).value
    ensures SetValue(data, col).None? ==> (col in SetFields(fields, data) <==> col in fields)
    ensures SetValue(data, col).None? && col in fields ==> SetFields(fields, data)[col] == fields[col]
    decreases |data|
  {
    if data != [] {
      var c := ColumnOf(data[0].0);
      if data[0].0 in Protected || c.None? || c.value == "id" || c.value == "email" {
        SetFieldsReads(fields, data[1..], col);
      } else {
        SetFieldsReads(fields[c.value := data[0].1], data[1..], col);
      }
    }
  }

  /** Why an update statement fails, in SQLite's words. */
  const NoSuchColumn := "no such column"
  const DatatypeMismatch := "datatype mismatch"
  const UniqueFailed := "UNIQUE constraint failed"
  /** A negative id or a NULL email, which SQLite stores but this model's rows cannot hold. */
  const Unrepresented := "value outside the model"

  /**
   * The row after `SET …`. The id is an INTEGER PRIMARY KEY and takes only
   * integers; the email column has TEXT affinity and stores a number as its
   * decimal text; every other column stores the value as sent.
   */
  function SetRow(row: UserRow, data: seq<(string, Value)>): (r: Result<UserRow, string>)
    ensures r.Success? ==> r.value.fields == SetFields(row.fields, data)
    ensures r.Success? && SetValue(data, "id").None? ==> r.value.id == row.id
    ensures r.Success? && SetValue(data, "email").None? ==> r.value.email == row.email
  {
    var id: Result<nat, string> := match SetValue(data, "id")
      case None => Success(row.id)
      case Some(Num(n)) => if n >= 0 then Success(n) else Failure(Unrepresented)
      case Some(_) => Failure(DatatypeMismatch);
    var email: Result<string, string> := match SetValue(data, "email")
      case None => Success(row.email)
      case Some(Str(s)) => Success(s)
      case Some(Num(n)) => Success(IntToString(n))
      case Some(Null) => Failure(Unrepresented);
    if id.Failure? then Failure(id.error)
    else if email.Failure? then Failure(email.error)
    else Success(UserRow(id.value, email.value, SetFields(row.fields, data)))
  }

  /** A row already holding what the statement sets is a fixed point of it. */
  lemma SetRowTwice(row: UserRow, data: seq<(string, Value)>)
    requires SetRow(row, data).Success?
    ensures SetRow(SetRow(row, data).value, data) == SetRow(row, data)
  {
    var once := SetRow(row, data).value;
    var f := SetFields(SetFields(row.fields, data), data);
    forall k
      ensures (k in f <==> k in once.fields) && (k in f ==> f[k] == once.fields[k])
    {
      if k != "id" && k != "email" {
        SetFieldsReads(row.fields, data, k);
        SetFieldsReads(once.fields, data, k);
      } else {
        SetFieldsNeverIdOrEmail(row.fields, data, k);
        SetFieldsNeverIdOrEmail(once.fields, data, k);
      }
    }
    assert f == once.fields;
  }

  /** The SET never writes id or email into the other columns. */
  lemma {:induction false} SetFieldsNeverIdOrEmail(fields: map<string, Value>, data: seq<(string, Value)>, k: string)
    requires k == "id" || k == "email"
    ensures (k in SetFields(fields, data) <==> k in fields) && (k in fields ==> SetFields(fields, data)[k] == fields[k])
    decreases |data|
  {
    if data != [] {
      var c := ColumnOf(data[0].0);
      if data[0].0 in Protected || c.None? || c.value == "id" || c.value == "email" {
        SetFieldsNeverIdOrEmail(fields, data[1..], k);
      } else {
        SetFieldsNeverIdOrEmail(fields[c.value := data[0].1], data[1..], k);
      }
    }
  }

  /** Data made only of protected keys changes nothing. */
  lemma {:induction false} SetNothing(row: UserRow, data: seq<(string, Value)>)
    requires forall i :: 0 <= i < |data| ==> data[i].0 in Protected
    ensures SetRow(row, data) == Success(row)
    decreases |data|
  {
    if data != [] {
      SetNothing(row, data[1..]);
    }
  }

  /**
   * The columns of a row `INSERT INTO users (email, name, photo)` creates, as
   * `SELECT *` reads them back: name and photo as given, created_at from the
   * clock, defaultRankingVisibility at its DEFAULT 'public', and every other
   * column NULL.
   */
  function InsertedFields(name: string, photo: string, now: string): (f: map<string, Value>)
    ensures f.Keys == Columns - {"id", "email"}
    ensures f["name"] == Str(name) && f["photo"] == Str(photo) && f["created_at"] == Str(now)
    ensures f["defaultRankingVisibility"] == Str("public")
    ensures forall c :: c in f && c != "name" && c != "photo" && c != "created_at" && c != "defaultRankingVisibility" ==> f[c] == Null
  {
    map c | c in Columns - {"id", "email"} ::
      if c == "name" then Str(name)
      else if c == "photo" then Str(photo)
      else if c == "created_at" then Str(now)
      else if c == "defaultRankingVisibility" then Str("public")
      else Null
  }

  function FindById(rows: seq<UserRow>, id: nat): Option<UserRow> {
    Find(rows, IdIs(id))
  }

  function IdIs(id: nat): UserRow -> bool {
    (u: UserRow) => u.id == id
  }

  /** Another row than the `i`-th already holds this id or this email. */
  predicate Clashes(rows: seq<UserRow>, i: nat, row: UserRow) {
    exists j :: 0 <= j < |rows| && j != i && (rows[j].id == row.id || rows[j].email == row.email)
  }

  /**
   * `updateUser(id, data)`: nothing to set resolves `undefined` without a
   * query. A settable key that names no column, in any case, fails the
   * statement. Otherwise the row with that id (if any) gets the SET, which
   * fails on a value its column refuses or on a clash with the UNIQUE id or
   * email of another row; AUTOINCREMENT then hands out ids above the row's.
   * The row is read back by the id the request named.
   */
  function UpdateUser(t: Users, id: nat, data: seq<(string, Value)>): (r: (Users, Result<Option<UserRow>, string>))
    requires ValidUsers(t)
    ensures ValidUsers(r.0)
    ensures UpdateStatement(id, data).None? ==> r == (t, Success(None))
    ensures (exists j :: 0 <= j < |data| && data[j].0 !in Protected && ColumnOf(data[j].0).None?) ==> r == (t, Failure(NoSuchColumn))
    ensures r.1.Failure? ==> r.0 == t
    ensures r.1.Success? ==> |r.0.rows| == |t.rows| && r.0.nextId >= t.nextId
    ensures r.1.Success? ==> forall i :: 0 <= i < |t.rows| ==>
      if t.rows[i].id == id then SetRow(t.rows[i], data) == Success(r.0.rows[i]) else r.0.rows[i] == t.rows[i]
    ensures r.1.Success? && UpdateStatement(id, data).Some? ==> r.1.value == FindById(r.0.rows, id)
  {
    if UpdateStatement(id, data).None? then
      forall i | 0 <= i < |t.rows| && t.rows[i].id == id
        ensures SetRow(t.rows[i], data) == Success(t.rows[i])
      {
        SetNothing(t.rows[i], data);
      }
      (t, Success(None))
    else if exists j :: 0 <= j < |data| && data[j].0 !in Protected && ColumnOf(data[j].0).None? then
      (t, Failure(NoSuchColumn))
    else match FindIndex(t.rows, IdIs(id))
      case None => (t, Success(None))
      case Some(i) =>
        match SetRow(t.rows[i], data)
        case Failure(e) => (t, Failure(e))
        case Success(row) =>
          if Clashes(t.rows, i, row) then (t, Failure(UniqueFailed))
          else
            var u := ReplaceRow(t, i, row);
            (u, Success(FindById(u.rows, id)))
  }

  /**
   * The table with row `i` replaced by a row that clashes with no other;
   * AUTOINCREMENT hands out later ids above the new row's.
   */
  function ReplaceRow(t: Users, i: nat, row: UserRow): (u: Users)
    requires ValidUsers(t) && i < |t.rows| && !Clashes(t.rows, i, row)
    ensures ValidUsers(u)
    ensures u.rows == t.rows[i := row] && u.nextId >= t.nextId && u.nextId > row.id
    ensures row.id < t.nextId ==> u.nextId == t.nextId
  {
    Users(t.rows[i := row], if row.id + 1 > t.nextId then row.id + 1 else t.nextId)
  }

  /**
   * When no key names id or email in any case, the update returns the row
   * with its id and email unchanged, and each column the body names holds
   * the rightmost value sent for it while the others keep theirs.
   */
  lemma UpdateUserReadsBack(t: Users, id: nat, data: seq<(string, Value)>, i: nat, col: string)
    requires ValidUsers(t)
    requires i < |t.rows| && t.rows[i].id == id
    requires SetValue(data, "id").None? && SetValue(data, "email").None?
    requires col != "id" && col != "email"
    requires UpdateUser(t, id, data).1.Success?
    ensures var r := UpdateUser(t, id, data);
      && (UpdateStatement(id, data).Some? ==> r.1.value == Some(r.0.rows[i]))
      && r.0.rows[i].id == id && r.0.rows[i].email == t.rows[i].email
      && (SetValue(data, col).Some? ==> col in r.0.rows[i].fields && r.0.rows[i].fields[col] == SetValue(data, col).value)
      && (SetValue(data, col).None? ==>
            && (col in r.0.rows[i].fields <==> col in t.rows[i].fields)
            && (col in t.rows[i].fields ==> r.0.rows[i].fields[col] == t.rows[i].fields[col]))
  {
    var r := UpdateUser(t, id, data);
    SetFieldsReads(t.rows[i].fields, data, col);
    var found := FindIndex(r.0.rows, IdIs(id));
    assert found.Some? && found.value <= i;
    assert found.value == i by {
      assert r.0.rows[found.value].id == t.rows[found.value].id;
    }
  }

  /** Sending the same update twice leaves the table as one update did. */
  lemma UpdateUserIdempotent(t: Users, id: nat, data: seq<(string, Value)>)
    requires ValidUsers(t)
    requires UpdateUser(t, id, data).1.Success?
    ensures var once := UpdateUser(t, id, data).0;
      UpdateUser(once, id, data).0 == once
  {
    var once := UpdateUser(t, id, data).0;
    if UpdateStatement(id, data).Some? {
      match FindIndex(t.rows, IdIs(id))
      case None =>
      case Some(i) =>
        SetRowTwice(t.rows[i], data);
        var row := once.rows[i];
        if row.id == id {
          assert FindIndex(once.rows, IdIs(id)) == Some(i) by {
            assert forall j :: 0 <= j < |once.rows| && j != i ==> once.rows[j] == t.rows[j];
          }
          assert !Clashes(once.rows, i, row) by {
            assert forall j :: 0 <= j < |once.rows| && j != i ==> once.rows[j] == t.rows[j];
          }
          assert once.rows[i := row] == once.rows;
        } else {
          assert FindIndex(once.rows, IdIs(id)).None? by {
            forall j | 0 <= j < |once.rows| ensures once.rows[j].id != id {
              if j != i { assert once.rows[j] == t.rows[j]; }
            }
          }
        }
    }
  }

  /** The one-user table the examples below start from. */
  const OneUser := Users([UserRow(1, "a@x", map[])], 2)

  /** The key "Email" passes the filter and sets the email column. */
  lemma EmailVariantSets()
    ensures var data := [("Email", Str("b@x"))];
      && ColumnOf("Email") == Some("email")
      && UpdateStatement(1, data).Some?
      && SetRow(OneUser.rows[0], data) == Success(UserRow(1, "b@x", map[]))
  {
    var data := [("Email", Str("b@x"))];
    assert ToLowerAscii("Email") == "email";
    assert ColumnOf("Email") == Some("email");
    assert Kept(data) == data by {
      assert Settable()(data[0]);
      assert data[1..] == [];
    }
    assert SetValue(data, "email") == Some(Str("b@x")) by {
      assert data[1..] == [];
    }
    assert SetValue(data, "id") == None by {
      assert data[1..] == [];
    }
    assert SetFields(map[], data) == map[] by {
      assert data[1..] == [];
    }
  }

  /**
   * The protection bypass as written: the filter compares keys
   * case-sensitively, so `{"Email": "b@x"}` passes it and SQLite writes
   * the email column.
   */
  lemma EmailVariantBypassesProtection()
    ensures UpdateUser(OneUser, 1, [("Email", Str("b@x"))])
      == (Users([UserRow(1, "b@x", map[])], 2), Success(Some(UserRow(1, "b@x", map[]))))
  {
    var data := [("Email", Str("b@x"))];
    EmailVariantSets();
    assert FindIndex(OneUser.rows, IdIs(1)) == Some(0);
    var rows := [UserRow(1, "b@x", map[])];
    assert FindIndex(rows, IdIs(1)) == Some(0);
    assert SetRow(OneUser.rows[0], data) == Success(rows[0]);
    assert !Clashes(OneUser.rows, 0, rows[0]);
    assert OneUser.rows[0 := rows[0]] == rows;
  }

  /**
   * Likewise `{"ID": 7}` moves the user to id 7, after which the read-back
   * by the old id finds nothing and the counter moves past 7.
   */
  lemma IdVariantMovesTheUser()
    ensures UpdateUser(OneUser, 1, [("ID", Num(7))]) == (Users([UserRow(7, "a@x", map[])], 8), Success(None))
  {
    var data := [("ID", Num(7))];
    assert ToLowerAscii("ID") == "id";
    assert ColumnOf("ID") == Some("id");
    assert UpdateStatement(1, data).Some?;
    assert Kept(data) == data by {
      assert Settable()(data[0]);
      assert data[1..] == [];
    }
    assert SetValue(data, "id") == Some(Num(7)) by {
      assert data[1..] == [];
    }
    assert SetValue(data, "email") == None by {
      assert data[1..] == [];
    }
    assert SetFields(map[], data) == map[] by {
      assert data[1..] == [];
    }
    assert FindIndex(OneUser.rows, IdIs(1)) == Some(0);
    var rows := [UserRow(7, "a@x", map[])];
    assert FindIndex(rows, IdIs(1)) == None;
    assert SetRow(OneUser.rows[0], data) == Success(rows[0]);
    assert !Clashes(OneUser.rows, 0, rows[0]);
    assert OneUser.rows[0 := rows[0]] == rows;
  }

  /** A key the corrected filter keeps: not id, email or created_at in any case. */
  function SettableAnyCase(): ((string, Value)) -> bool {
    (e: (string, Value)) => ToLowerAscii(e.0) !in Protected
  }

  /** The body with the protected keys dropped whatever their case. */
  function CorrectedData(data: seq<(string, Value)>): seq<(string, Value)> {
    Filter(data, SettableAnyCase())
  }

  /** `updateUser` with the protected keys dropped whatever their case. */
  function UpdateUserCorrected(t: Users, id: nat, data: seq<(string, Value)>): (r: (Users, Result<Option<UserRow>, string>))
    requires ValidUsers(t)
  {
    UpdateUser(t, id, CorrectedData(data))
  }

  /** No settable entry of the corrected data names id or email. */
  lemma CorrectedNeverNamesKeys(data: seq<(string, Value)>, col: string)
    requires col == "id" || col == "email"
    ensures SetValue(CorrectedData(data), col).None?
  {
    var kept := CorrectedData(data);
    forall j | 0 <= j < |kept| ensures !Names(kept[j], col) {
      FilterMember(data, SettableAnyCase(), kept[j]);
      ProtectedColumnSpelled(kept[j].0);
    }
    SetValueNone(kept, col);
  }

  /**
   * An update none of whose keys names id or email keeps every id and
   * email and the counter; when it sets something, it returns the updated
   * row of that id.
   */
  lemma UpdateUserKeepsUnnamedKeys(t: Users, id: nat, data: seq<(string, Value)>)
    requires ValidUsers(t)
    requires SetValue(data, "id").None? && SetValue(data, "email").None?
    ensures var r := UpdateUser(t, id, data);
      && r.0.nextId == t.nextId && |r.0.rows| == |t.rows|
      && (forall i :: 0 <= i < |t.rows| ==> r.0.rows[i].id == t.rows[i].id && r.0.rows[i].email == t.rows[i].email)
      && (forall i :: 0 <= i < |t.rows| && t.rows[i].id == id && r.1.Success? && UpdateStatement(id, data).Some? ==>
            r.1.value == Some(r.0.rows[i]))
  {
    var r := UpdateUser(t, id, data);
    if r.1.Success? && UpdateStatement(id, data).Some? {
      match FindIndex(t.rows, IdIs(id))
      case None =>
      case Some(i) =>
        assert SetRow(t.rows[i], data) == Success(r.0.rows[i]);
        assert r.0.rows[i].id < t.nextId;
        var found := FindIndex(r.0.rows, IdIs(id));
        assert found.Some? && found.value <= i;
        assert found.value == i by {
          assert r.0.rows[found.value].id == t.rows[found.value].id;
        }
    }
  }

  /**
   * The corrected update keeps every id and email, and the counter, whatever
   * the body sends; when it sets something, it returns the updated row.
   */
  lemma UpdateUserCorrectedKeepsKeys(t: Users, id: nat, data: seq<(string, Value)>)
    requires ValidUsers(t)
    ensures var r := UpdateUserCorrected(t, id, data);
      && r.0.nextId == t.nextId && |r.0.rows| == |t.rows|
      && (forall i :: 0 <= i < |t.rows| ==> r.0.rows[i].id == t.rows[i].id && r.0.rows[i].email == t.rows[i].email)
      && (forall i :: 0 <= i < |t.rows| && t.rows[i].id == id && r.1.Success? && UpdateStatement(id, CorrectedData(data)).Some? ==>
            r.1.value == Some(r.0.rows[i]))
  {
    CorrectedNeverNamesKeys(data, "id");
    CorrectedNeverNamesKeys(data, "email");
    UpdateUserKeepsUnnamedKeys(t, id, CorrectedData(data));
  }

  // ---------------------------------------------------------------------------
  // getLatestResult
  // ---------------------------------------------------------------------------

  /** One row of quiz_results: its owner, its creation time, and the stored snapshots. */
  datatype QuizRow<P, C> = QuizRow(userId: nat, createdAt: int, profile: P, snapshot: C, snapshotClusterId: string)

  /**
   * `ORDER BY created_at DESC LIMIT 1` over the user's rows: a row with the
   * greatest creation time, the earliest such row among equals.
   */
  function Latest<P, C>(rows: seq<QuizRow<P, C>>, userId: nat): (r: Option<QuizRow<P, C>>)
    ensures r.None? <==> forall i :: 0 <= i < |rows| ==> rows[i].userId != userId
    ensures r.Some? ==> r.value in rows && r.value.userId == userId
    ensures r.Some? ==> forall i :: 0 <= i < |rows| && rows[i].userId == userId ==> rows[i].createdAt <= r.value.createdAt
  {
    if rows == [] then None
    else
      var rest := Latest(rows[1..], userId);
      if rows[0].userId != userId then rest
      else if rest.Some? && rest.value.createdAt > rows[0].createdAt then rest
      else Some(rows[0])
  }

  /** A result saved later than all of the user's others becomes the latest. */
  lemma {:induction false} SavedResultIsLatest<P, C>(rows: seq<QuizRow<P, C>>, row: QuizRow<P, C>)
    requires forall i :: 0 <= i < |rows| && rows[i].userId == row.userId ==> rows[i].createdAt < row.createdAt
    ensures Latest(rows + [row], row.userId) == Some(row)
    decreases |rows|
  {
    if rows != [] {
      assert (rows + [row])[1..] == rows[1..] + [row];
      SavedResultIsLatest(rows[1..], row);
    }
  }

  /** What `getLatestResult` resolves: the row, its profile, and a cluster. */
  datatype LatestResult<P, C> = LatestResult(row: QuizRow<P, C>, profile: P, cluster: C)

  /**
   * `getLatestResult(userId)`: `null` without a quiz row; otherwise the
   * latest row with the fresh cluster row for its snapshot's id, falling
   * back to the snapshot when that lookup fails or finds nothing.
   */
  function GetLatestResult<P, C>(quiz: seq<QuizRow<P, C>>, clusters: seq<ClusterService.ClusterRow<C>>,
                                 userId: nat, clusterQueryFails: bool): (r: Option<LatestResult<P, C>>)
    ensures r.None? <==> forall i :: 0 <= i < |quiz| ==> quiz[i].userId != userId
    ensures r.Some? ==> Some(r.value.row) == Latest(quiz, userId) && r.value.profile == r.value.row.profile
    ensures r.Some? && !clusterQueryFails && ClusterService.HasRow(clusters, r.value.row.snapshotClusterId) ==>
      exists i :: 0 <= i < |clusters| && clusters[i].clusterId == r.value.row.snapshotClusterId && clusters[i].info == r.value.cluster
    ensures r.Some? && (clusterQueryFails || !ClusterService.HasRow(clusters, r.value.row.snapshotClusterId)) ==>
      r.value.cluster == r.value.row.snapshot
  {
    match Latest(quiz, userId)
    case None => None
    case Some(row) =>
      var cluster :=
        if clusterQueryFails then row.snapshot
        else (match ClusterService.ClusterById(clusters, row.snapshotClusterId)
          case Some(current) => current
          case None => row.snapshot);
      Some(LatestResult(row, row.profile, cluster))
  }
}

/**
 * The user endpoints: find-or-create login and reading a user together
 * with the latest quiz result.
 */
module UserController {
  import opened Wrappers
  import opened Arrays
  import opened Js
  import opened Http
  import opened UserStore
  import ClusterService

  function FindByEmail(rows: seq<UserRow>, email: string): (r: Option<UserRow>)
    ensures r.Some? <==> exists i :: 0 <= i < |rows| && rows[i].email == email
    ensures r.Some? ==> r.value in rows && r.value.email == email
  {
    Find(rows, (u: UserRow) => u.email == email)
  }

  /** `name || 'User'` and `photo || ''`. */
  function OrText(s: Option<string>, fallback: string): string {
    if NonEmpty(s) then s.value else fallback
  }

  /**
   * `loginUser`: no email is a 400; a known email returns its user
   * unchanged; an unknown one inserts a user with the name (default 'User')
   * and photo (default '') given, and returns the row as `SELECT *` reads
   * it back, column defaults included; `now` is the database clock.
   */
  function LoginUser(t: Users, email: Option<string>, name: Option<string>, photo: Option<string>, now: string): (r: (Users, Status, Option<UserRow>))
    requires ValidUsers(t)
    ensures ValidUsers(r.0)
    ensures !NonEmpty(email) ==> r == (t, BadRequest, None)
    ensures NonEmpty(email) ==> r.1 == Ok && r.2.Some? && r.2.value in r.0.rows && r.2.value.email == email.value
    ensures NonEmpty(email) && FindByEmail(t.rows, email.value).Some? ==> r.0 == t && r.2 == FindByEmail(t.rows, email.value)
    ensures NonEmpty(email) && FindByEmail(t.rows, email.value).None? ==>
      && r.0.rows == t.rows + [r.2.value]
      && r.2.value.id == t.nextId
      && r.2.value.fields == InsertedFields(OrText(name, "User"), OrText(photo, ""), now)
  {
    if !NonEmpty(email) then (t, BadRequest, None)
    else match FindByEmail(t.rows, email.value)
      case Some(u) => (t, Ok, Some(u))
      case None =>
        var u := UserRow(t.nextId, email.value, InsertedFields(OrText(name, "User"), OrText(photo, ""), now));
        (Users(t.rows + [u], t.nextId + 1), Ok, Some(u))
  }

  /** Logging in again with the same email finds the same user and inserts nothing. */
  lemma LoginTwice(t: Users, email: string, name: Option<string>, photo: Option<string>, now: string,
                   name2: Option<string>, photo2: Option<string>, now2: string)
    requires ValidUsers(t) && email != ""
    ensures var first := LoginUser(t, Some(email), name, photo, now);
      var second := LoginUser(first.0, Some(email), name2, photo2, now2);
      second.0 == first.0 && second.2 == first.2
  {
    var first := LoginUser(t, Some(email), name, photo, now);
    var u := first.2.value;
    var k :| 0 <= k < |first.0.rows| && first.0.rows[k] == u;
    var found := FindIndex(first.0.rows, (v: UserRow) => v.email == email);
    assert found.Some?;
    assert first.0.rows[found.value].email == first.0.rows[k].email;
  }

  /** The body of a successful `getUser`: the row and its latest result. */
  datatype UserWithResult<P, C> = UserWithResult(user: UserRow, latestResult: Option<LatestResult<P, C>>)

  /** `getUser(id)`: an unknown id is a 404; a known one comes with its latest quiz result. */
  function GetUser<P, C>(t: Users, quiz: seq<QuizRow<P, C>>, clusters: seq<ClusterService.ClusterRow<C>>,
                         id: nat, clusterQueryFails: bool): (r: (Status, Option<UserWithResult<P, C>>))
    ensures r.0 == NotFound <==> forall i :: 0 <= i < |t.rows| ==> t.rows[i].id != id
    ensures r.0 == NotFound || r.0 == Ok
    ensures r.0 == NotFound <==> r.1.None?
    ensures r.1.Some? ==> r.1.value.user in t.rows && r.1.value.user.id == id
    ensures r.1.Some? ==> r.1.value.latestResult == GetLatestResult(quiz, clusters, id, clusterQueryFails)
  {
    match FindById(t.rows, id)
    case None => (NotFound, None)
    case Some(u) => (Ok, Some(UserWithResult(u, GetLatestResult(quiz, clusters, u.id, clusterQueryFails))))
  }

  /** A user who just logged in is found by `getUser`. */
  lemma LoggedInUserIsFound<P, C>(t: Users, email: string, name: Option<string>, photo: Option<string>, now: string,
                                  quiz: seq<QuizRow<P, C>>, clusters: seq<ClusterService.ClusterRow<C>>, fails: bool)
    requires ValidUsers(t) && email != ""
    ensures var login := LoginUser(t, Some(email), name, photo, now);
      GetUser(login.0, quiz, clusters, login.2.value.id, fails).0 == Ok
  {
  }
}
