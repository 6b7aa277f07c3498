/** The UserAccount table: rows keyed by account name. The adapter builds
    its SQL by concatenating the account's fields into quoted literals, so
    the key of every statement is the name as concatenated text (a null
    name is the literal 'null'). Values are taken to contain no quote. */
module UserAccountStore {
  import opened Wrappers
  import opened JavaLang
  import opened Entities
  import opened Sql

  /** The declared VARCHAR widths of the four columns. */
  const NameWidth := 30
  const PasswordWidth := 100
  const SaltWidth := 50
  const TypeWidth := 10

  /** The three non-key columns of a row; all are NOT NULL. */
  datatype AccountRow = AccountRow(encryptedPassword: string, passwordSalt: string, accountType: string)

  type AccountRows = map<string, AccountRow>

  /** A row whose values fit the declared widths. */
  predicate Fits(name: string, row: AccountRow)
  {
    |name| <= NameWidth && |row.encryptedPassword| <= PasswordWidth
    && |row.passwordSalt| <= SaltWidth && |row.accountType| <= TypeWidth
  }

  /** What the table can hold: every row fits its columns. */
  predicate WellFormed(rows: AccountRows)
  {
    forall n :: n in rows ==> Fits(n, rows[n])
  }

  /** The key an account's statements use. */
  function KeyOf(a: UserAccount): string
  {
    Str(a.name)
  }

  /** The values an account's statements write. */
  function RowOf(a: UserAccount): AccountRow
  {
    AccountRow(Str(a.encryptedPassword), Str(a.passwordSalt), Str(a.accountType))
  }

  /** An account with every field set. */
  predicate Complete(a: UserAccount)
  {
    a.name.Some? && a.encryptedPassword.Some? && a.passwordSalt.Some? && a.accountType.Some?
  }

  /** The account `findOneRecord` fills from the row stored under `key`:
      all four fields from the row, or all null when there is none. */
  function Find(rows: AccountRows, key: string): (a: UserAccount)
    ensures a.name.Some? <==> key in rows
    ensures key in rows ==> Complete(a) && KeyOf(a) == key && RowOf(a) == rows[key]
    ensures key !in rows ==> a == NoAccount
  {
    if key in rows then
      var row := rows[key];
      UserAccount(Some(key), Some(row.encryptedPassword), Some(row.passwordSalt), Some(row.accountType))
    else NoAccount
  }

  /** INSERT: fails on an existing name (the primary key) or a value too
      long for its column, and otherwise adds exactly one row. */
  function Insert(rows: AccountRows, a: UserAccount): (r: Result<AccountRows, SqlError>)
    ensures r.Success? <==> KeyOf(a) !in rows && Fits(KeyOf(a), RowOf(a))
    ensures r.Success? ==> r.value.Keys == rows.Keys + {KeyOf(a)}
    ensures r.Success? ==> forall n :: n in rows ==> r.value[n] == rows[n]
    ensures r.Success? ==> Find(r.value, KeyOf(a)).name == Some(KeyOf(a)) && r.value[KeyOf(a)] == RowOf(a)
    ensures WellFormed(rows) && r.Success? ==> WellFormed(r.value)
  {
    if KeyOf(a) in rows then Failure(DuplicateKey)
    else if !Fits(KeyOf(a), RowOf(a)) then Failure(ValueTooLong)
    else Success(rows[KeyOf(a) := RowOf(a)])
  }

  /** UPDATE ... WHERE userAccountName = <the account's own name>: the row
      is found by the name being written, so no row is ever renamed; an
      absent name updates nothing and succeeds. */
  function Update(rows: AccountRows, a: UserAccount): (r: Result<AccountRows, SqlError>)
    ensures r.Success? <==> KeyOf(a) !in rows || Fits(KeyOf(a), RowOf(a))
    ensures r.Success? ==> r.value.Keys == rows.Keys
    ensures r.Success? ==> forall n :: n in rows && n != KeyOf(a) ==> r.value[n] == rows[n]
    ensures r.Success? && KeyOf(a) in rows ==> r.value[KeyOf(a)] == RowOf(a)
    ensures r.Success? && KeyOf(a) !in rows ==> r.value == rows
    ensures WellFormed(rows) && r.Success? ==> WellFormed(r.value)
  {
    if KeyOf(a) !in rows then Success(rows)
    else if !Fits(KeyOf(a), RowOf(a)) then Failure(ValueTooLong)
    else Success(rows[KeyOf(a) := RowOf(a)])
  }

  /** DELETE ... WHERE userAccountName = <the account's name>. */
  function Delete(rows: AccountRows, a: UserAccount): (r: AccountRows)
    ensures r.Keys == rows.Keys - {KeyOf(a)}
    ensures forall n :: n in r ==> r[n] == rows[n]
  {
    rows - {KeyOf(a)}
  }

  /** `keys` lists every stored name exactly once. */
  ghost predicate ListsKeys(keys: seq<string>, rows: AccountRows)
  {
    |keys| == |rows| && (forall n :: n in keys <==> n in rows)
    && (forall i, j :: 0 <= i < j < |keys| ==> keys[i] != keys[j])
  }

  /** Insert-then-find: a complete account that was added is read back
      field for field. */
  lemma InsertThenFind(rows: AccountRows, a: UserAccount)
    requires Complete(a) && Insert(rows, a).Success?
    ensures Find(Insert(rows, a).value, a.name.value) == a
  {
  }

  /** The name is the primary key: adding an account whose name is stored
      already fails, whatever its other fields. */
  lemma InsertExistingFails(rows: AccountRows, a: UserAccount)
    requires KeyOf(a) in rows
    ensures Insert(rows, a) == Failure(DuplicateKey)
  {
  }

  /** Update-then-find: after a successful update of a stored complete
      account, its row reads back as the written fields. */
  lemma UpdateThenFind(rows: AccountRows, a: UserAccount)
    requires Complete(a) && a.name.value in rows && Update(rows, a).Success?
    ensures Find(Update(rows, a).value, a.name.value) == a
  {
  }

  /** Changing an account's name and updating it never renames the stored
      row: the old name keeps its old row, and the new name's row (if any)
      is the one overwritten. */
  lemma UpdateNeverRenames(rows: AccountRows, a: UserAccount, oldName: string)
    requires oldName in rows && oldName != KeyOf(a) && Update(rows, a).Success?
    ensures oldName in Update(rows, a).value && Update(rows, a).value[oldName] == rows[oldName]
    ensures KeyOf(a) in Update(rows, a).value <==> KeyOf(a) in rows
  {
  }

  class UserAccountTableAdapter {
    /** The UserAccount table of the database: name -> row. */
    var rows: AccountRows

    ghost predicate Valid()
      reads this
    {
      WellFormed(rows)
    }

    /** `new UserAccountTableAdapter(reset)` over a database whose table
        holds `existing`: with reset the table is dropped and created
        empty, unless another table (`referenced`: the Administrator table's
        userAccount column) still references it, in which case the DROP is
        refused, the refusal ignored, and the create fails harmlessly like
        it does without reset; the rows stay. */
    constructor (reset: bool, referenced: bool, existing: AccountRows)
      requires WellFormed(existing)
      ensures Valid()
      ensures rows == if reset && !referenced then map[] else existing
    {
      rows := if reset && !referenced then map[] else existing;
    }

    method AddNewRecord(a: UserAccount) returns (r: Outcome<SqlError>)
      requires Valid()
      modifies this
      ensures Valid()
      ensures r == OutcomeOf(Insert(old(rows), a))
      ensures rows == if r.Pass? then Insert(old(rows), a).value else old(rows)
    {
      var key := KeyOf(a);
      if key in rows {
        return Fail(DuplicateKey);
      }
      if !Fits(key, RowOf(a)) {
        return Fail(ValueTooLong);
      }
      rows := rows[key := RowOf(a)];
      r := Pass;
    }

    method UpdateRecord(a: UserAccount) returns (r: Outcome<SqlError>)
      requires Valid()
      modifies this
      ensures Valid()
      ensures r == OutcomeOf(Update(old(rows), a))
      ensures rows == if r.Pass? then Update(old(rows), a).value else old(rows)
    {
      var key := KeyOf(a);
      if key in rows {
        if !Fits(key, RowOf(a)) {
          return Fail(ValueTooLong);
        }
        rows := rows[key := RowOf(a)];
      }
      r := Pass;
    }

    /** SELECT * ... WHERE userAccountName = <key>, copying each result row
        into a fresh all-null account (the name is the key, so there is at
        most one row). */
    method FindOneRecord(key: Option<string>) returns (a: UserAccount)
      ensures a == Find(rows, Str(key))
      ensures a.name.None? <==> Str(key) !in rows
    {
      var k := Str(key);
      var resultSet: seq<(string, AccountRow)> := if k in rows then [(k, rows[k])] else [];
      a := NoAccount;
      for i := 0 to |resultSet|
        invariant i == 0 ==> a == NoAccount
        invariant i > 0 ==> a == Find(rows, k)
      {
        var (name, row) := resultSet[i];
        a := a.(name := Some(name));
        a := a.(encryptedPassword := Some(row.encryptedPassword));
        a := a.(passwordSalt := Some(row.passwordSalt));
        a := a.(accountType := Some(row.accountType));
      }
    }

    method DeleteOneRecord(a: UserAccount)
      requires Valid()
      modifies this
      ensures Valid()
      ensures rows == Delete(old(rows), a)
    {
      rows := rows - {KeyOf(a)};
    }

    /** SELECT userAccountName FROM UserAccount: one entry per stored
        account, in the order the result set returns them. */
    method GetAllKeys() returns (keys: seq<string>)
      ensures |keys| == |rows|
      ensures forall n :: n in keys <==> n in rows
      ensures forall i, j :: 0 <= i < j < |keys| ==> keys[i] != keys[j]
    {
      keys := [];
      var unread := rows.Keys;
      while unread != {}
        invariant unread <= rows.Keys
        invariant forall n :: n in keys <==> n in rows && n !in unread
        invariant forall i, j :: 0 <= i < j < |keys| ==> keys[i] != keys[j]
        invariant |keys| + |unread| == |rows|
        decreases unread
      {
        var n :| n in unread;
        keys := keys + [n];
        unread := unread - {n};
      }
    }

    /** The DataStore interface's name for GetAllKeys. */
    method GetKeys() returns (keys: seq<string>)
      ensures |keys| == |rows|
      ensures forall n :: n in keys <==> n in rows
      ensures forall i, j :: 0 <= i < j < |keys| ==> keys[i] != keys[j]
    {
      keys := GetAllKeys();
    }
  }
}
