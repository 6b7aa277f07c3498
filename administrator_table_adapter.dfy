/** The Administrator table, keyed by id, and the seeding of the default
    administrator with its "admin" account. Unlike the user-account
    adapter it binds values as statement parameters, so a null field is
    SQL NULL rather than the text 'null'. */
module AdministratorStore {
  import opened Wrappers
  import opened JavaLang
  import opened Digests
  import opened Entities
  import opened Sql
  import opened UserAccountStore

  /** The declared VARCHAR widths. */
  const IdWidth := 9
  const TextWidth := 60
  const AccountNameWidth := 30

  /** A stored administrator (the date column is not modelled). */
  datatype AdminRow = AdminRow(
    firstName: string,
    lastName: string,
    email: Option<string>,
    phone: Option<string>,
    userAccount: Option<string>)

  type AdminRows = map<string, AdminRow>

  predicate FitsOpt(s: Option<string>, width: nat)
  {
    s.None? || |s.value| <= width
  }

  predicate AdminFits(id: string, row: AdminRow)
  {
    |id| <= IdWidth && |row.firstName| <= TextWidth && |row.lastName| <= TextWidth
    && FitsOpt(row.email, TextWidth) && FitsOpt(row.phone, TextWidth)
    && FitsOpt(row.userAccount, AccountNameWidth)
  }

  predicate AdminsWellFormed(rows: AdminRows)
  {
    forall id :: id in rows ==> AdminFits(id, rows[id])
  }

  /** The value `updateRecord` writes to the userAccount column: the
      account's name, or NULL when the account or its name is null. */
  function AccountColumn(a: Administrator): Option<string>
  {
    if a.userAccount.Some? && a.userAccount.value.name.Some? then a.userAccount.value.name else None
  }

  /** INSERT (id, firstName, lastName, email, phone): id, firstName and
      lastName are NOT NULL, id is the primary key; userAccount is left
      NULL. */
  function InsertAdmin(rows: AdminRows, a: Administrator): (r: Result<AdminRows, SqlError>)
    ensures r.Success? <==>
      a.id.Some? && a.firstName.Some? && a.lastName.Some? && a.id.value !in rows
      && AdminFits(a.id.value, AdminRow(a.firstName.value, a.lastName.value, a.email, a.phone, None))
    ensures r.Success? ==> r.value.Keys == rows.Keys + {a.id.value}
    ensures r.Success? ==> forall id :: id in rows ==> r.value[id] == rows[id]
    ensures r.Success? ==> r.value[a.id.value].userAccount.None?
    ensures r.Success? ==> FindAdmin(r.value, a.id) == a.(userAccount := Some(NoAccount))
    ensures AdminsWellFormed(rows) && r.Success? ==> AdminsWellFormed(r.value)
  {
    if a.id.None? || a.firstName.None? || a.lastName.None? then Failure(NullValue)
    else if a.id.value in rows then Failure(DuplicateKey)
    else
      var row := AdminRow(a.firstName.value, a.lastName.value, a.email, a.phone, None);
      if !AdminFits(a.id.value, row) then Failure(ValueTooLong)
      else Success(rows[a.id.value := row])
  }

  /** UPDATE ... WHERE id = ?: a null or absent id matches no row and
      changes nothing; a matched row takes every field, and the account
      column becomes AccountColumn(a). */
  function UpdateAdmin(rows: AdminRows, a: Administrator): (r: Result<AdminRows, SqlError>)
    ensures (a.id.None? || a.id.value !in rows) ==> r == Success(rows)
    ensures a.id.Some? && a.id.value in rows ==>
      var fits := a.firstName.Some? && a.lastName.Some?
        && AdminFits(a.id.value, AdminRow(a.firstName.value, a.lastName.value, a.email, a.phone, AccountColumn(a)));
      r.Success? <==> fits
    ensures r.Success? ==> r.value.Keys == rows.Keys
    ensures r.Success? ==> forall id :: id in rows && Some(id) != a.id ==> r.value[id] == rows[id]
    ensures r.Success? && a.id.Some? && a.id.value in rows ==>
      r.value[a.id.value] == AdminRow(a.firstName.value, a.lastName.value, a.email, a.phone, AccountColumn(a))
    ensures AdminsWellFormed(rows) && r.Success? ==> AdminsWellFormed(r.value)
  {
    if a.id.None? || a.id.value !in rows then Success(rows)
    else if a.firstName.None? || a.lastName.None? then Failure(NullValue)
    else
      var row := AdminRow(a.firstName.value, a.lastName.value, a.email, a.phone, AccountColumn(a));
      if !AdminFits(a.id.value, row) then Failure(ValueTooLong)
      else Success(rows[a.id.value := row])
  }

  /** The administrator `findOneRecord(id)` builds: every column of the row,
      and an account object carrying only the referenced name (empty
      password, salt and type) when the column is not NULL; otherwise the
      all-null record of `new Administrator()`. */
  function FindAdmin(rows: AdminRows, id: Option<string>): (a: Administrator)
    ensures a.id.Some? <==> id.Some? && id.value in rows
    ensures a.id.None? ==> a == NoAdministrator
    ensures a.id.Some? ==>
      a.id == id && a.firstName == Some(rows[id.value].firstName)
      && a.lastName == Some(rows[id.value].lastName)
      && a.email == rows[id.value].email && a.phone == rows[id.value].phone
    ensures a.id.Some? && rows[id.value].userAccount.None? ==> a.userAccount == Some(NoAccount)
    ensures a.id.Some? && rows[id.value].userAccount.Some? ==>
      a.userAccount == Some(UserAccount(rows[id.value].userAccount, Some(""), Some(""), Some("")))
  {
    if id.Some? && id.value in rows then
      var row := rows[id.value];
      var account := if row.userAccount.Some? then UserAccount(row.userAccount, Some(""), Some(""), Some("")) else NoAccount;
      Administrator(id, Some(row.firstName), Some(row.lastName), row.email, row.phone, Some(account))
    else NoAdministrator
  }

  /** Update-then-find: after a successful update of a stored id, the
      record reads back with the written fields, and its account object
      carries the written account's name (the all-null account when the
      written account, or its name, was null). */
  lemma UpdateThenFindAdmin(rows: AdminRows, a: Administrator)
    requires a.id.Some? && a.id.value in rows && UpdateAdmin(rows, a).Success?
    ensures var found := FindAdmin(UpdateAdmin(rows, a).value, a.id);
      found.id == a.id && found.firstName == a.firstName && found.lastName == a.lastName
      && found.email == a.email && found.phone == a.phone
      && found.userAccount.Some?
      && found.userAccount.value.name == (if a.userAccount.Some? then a.userAccount.value.name else None)
  {
  }

  /** The administrators whose account column names `account`. */
  function Holders(rows: AdminRows, account: UserAccount): set<string>
  {
    set id | id in rows && account.name.Some? && rows[id].userAccount == account.name
  }

  /** The record `findOneRecord(account)` builds from one row (it does not
      copy the account column). */
  function HolderRecord(id: string, row: AdminRow): Administrator
  {
    Administrator(Some(id), Some(row.firstName), Some(row.lastName), row.email, row.phone, Some(NoAccount))
  }

  /** The datatypes of both tables, for stating the seeding. */
  datatype Tables = Tables(admins: AdminRows, accounts: AccountRows)

  const DefaultId := "1"
  const DefaultAccountName := "admin"
  const DefaultPassword := "admin"

  /** The default administrator as `addAmin` fills it in. */
  const DefaultAdmin := Administrator(Some(DefaultId), Some("Default iGlobal"), Some("Admin"),
                                      Some("admin@iGlobal.com"), Some("519 123 4567"), Some(NoAccount))

  /** The row the default administrator occupies. */
  function DefaultRow(account: Option<string>): AdminRow
  {
    AdminRow("Default iGlobal", "Admin", Some("admin@iGlobal.com"), Some("519 123 4567"), account)
  }

  /** The default account: name and type "admin", the hash of password
      "admin" under the given salt. */
  function DefaultAccount(c: Crypto, salt: string): UserAccount
  {
    UserAccount(Some(DefaultAccountName), Some(Encrypted(c, DefaultPassword, salt)), Some(salt), Some("admin"))
  }

  /** `addAmin` with the random int `seed`: insert administrator "1", insert
      the "admin" account salted with the decimal text of `seed`, then link
      the two. The first failing statement ends it, keeping what the earlier
      ones did. */
  function Seed(t: Tables, c: Crypto, seed: int32): (r: (Tables, Outcome<SqlError>))
    ensures DefaultId in t.admins ==> r == (t, Fail(DuplicateKey))
    ensures DefaultId !in t.admins && DefaultAccountName in t.accounts ==>
      r == (Tables(t.admins[DefaultId := DefaultRow(None)], t.accounts), Fail(DuplicateKey))
    ensures DefaultId !in t.admins && DefaultAccountName !in t.accounts ==>
      var salt := DecimalText(seed);
      r == (Tables(t.admins[DefaultId := DefaultRow(Some(DefaultAccountName))],
                   t.accounts[DefaultAccountName := AccountRow(Encrypted(c, DefaultPassword, salt), salt, "admin")]),
            Pass)
  {
    var salt := DecimalText(seed);
    DecimalTextShape(seed);
    match InsertAdmin(t.admins, DefaultAdmin)
    case Failure(e) => (t, Fail(e))
    case Success(admins1) =>
      match Insert(t.accounts, DefaultAccount(c, salt))
      case Failure(e) => (Tables(admins1, t.accounts), Fail(e))
      case Success(accounts1) =>
        assert accounts1 == t.accounts[DefaultAccountName := AccountRow(Encrypted(c, DefaultPassword, salt), salt, "admin")];
        match UpdateAdmin(admins1, DefaultAdmin.(userAccount := Some(DefaultAccount(c, salt))))
        case Failure(e) => (Tables(admins1, accounts1), Fail(e))
        case Success(admins2) =>
          assert admins1 == t.admins[DefaultId := DefaultRow(None)];
          assert admins2 == t.admins[DefaultId := DefaultRow(Some(DefaultAccountName))];
          (Tables(admins2, accounts1), Pass)
  }

  /** Seeding is idempotent: once administrator "1" exists, a further
      attempt, under any salt, fails on its first insert and changes
      nothing. */
  lemma SeedIdempotent(t: Tables, c: Crypto, seed1: int32, seed2: int32)
    ensures Seed(Seed(t, c, seed1).0, c, seed2) == (Seed(t, c, seed1).0, Fail(DuplicateKey))
  {
  }

  /** After a complete seeding the default credentials pass the login
      check: the stored hash is the encryption of "admin" under the stored
      salt, and the account type is "admin"; administrator "1" references
      the account. */
  lemma SeededAdminCanLogIn(t: Tables, c: Crypto, seed: int32)
    requires Seed(t, c, seed).1.Pass?
    ensures var accounts := Seed(t, c, seed).0.accounts;
      DefaultAccountName in accounts
      && accounts[DefaultAccountName].encryptedPassword
         == Encrypted(c, DefaultPassword, accounts[DefaultAccountName].passwordSalt)
      && accounts[DefaultAccountName].accountType == "admin"
    ensures FindAdmin(Seed(t, c, seed).0.admins, Some(DefaultId)).userAccount
      == Some(UserAccount(Some(DefaultAccountName), Some(""), Some(""), Some("")))
  {
  }

  /** Seeding keeps both tables well formed (the 64-character hash and the
      salt of at most 11 characters fit their columns). */
  lemma SeedWellFormed(t: Tables, c: Crypto, seed: int32)
    requires AdminsWellFormed(t.admins) && WellFormed(t.accounts)
    ensures AdminsWellFormed(Seed(t, c, seed).0.admins) && WellFormed(Seed(t, c, seed).0.accounts)
  {
    DecimalTextShape(seed);
  }

  class AdministratorTableAdapter {
    /** The Administrator table of the database: id -> row. */
    var rows: AdminRows
    /** The UserAccount table `addAmin` writes its account to. */
    const accounts: UserAccountTableAdapter
    const crypto: Crypto

    ghost predicate Valid()
      reads this, accounts
    {
      AdminsWellFormed(rows) && accounts.Valid()
    }

    ghost function Contents(): Tables
      reads this, accounts
    {
      Tables(rows, accounts.rows)
    }

    /** `new AdministratorTableAdapter(reset)` over a database whose
        Administrator table holds `existing`. */
    constructor (reset: bool, existing: AdminRows, accounts: UserAccountTableAdapter, crypto: Crypto, seed: int32)
      requires AdminsWellFormed(existing) && accounts.Valid()
      modifies accounts
      ensures Valid()
      ensures this.accounts == accounts && this.crypto == crypto
      ensures Contents() == Seed(if reset then Tables(map[], map[]) else Tables(existing, old(accounts.rows)), crypto, seed).0
    {
      this.rows := existing;
      this.accounts := accounts;
      this.crypto := crypto;
      new;
      Open(reset, seed);
    }

    /** The body of the constructor, run by every `new
        AdministratorTableAdapter(...)` over the shared database: drop both
        tables when resetting, then try to seed, ignoring its exception. */
    method Open(reset: bool, seed: int32)
      requires Valid()
      modifies this, accounts
      ensures Valid()
      ensures Contents() == Seed(if reset then Tables(map[], map[]) else old(Contents()), crypto, seed).0
    {
      if reset {
        rows := map[];
        accounts.rows := map[];
      }
      var _ := AddAmin(seed);
    }

    method AddAmin(seed: int32) returns (r: Outcome<SqlError>)
      requires Valid()
      modifies this, accounts
      ensures Valid()
      ensures (Contents(), r) == Seed(old(Contents()), crypto, seed)
    {
      ghost var t := Contents();
      SeedWellFormed(t, crypto, seed);
      var administrator := DefaultAdmin;
      r := AddNewRecord(administrator);
      if r.Fail? {
        return;
      }
      var salt := DecimalText(seed);
      var hash := Encrypt(DefaultPassword, salt);
      var account := UserAccount(Some(DefaultAccountName), Some(hash), Some(salt), Some("admin"));
      r := accounts.AddNewRecord(account);
      if r.Fail? {
        return;
      }
      administrator := administrator.(userAccount := Some(account));
      r := UpdateRecord(administrator);
    }

    method AddNewRecord(a: Administrator) returns (r: Outcome<SqlError>)
      requires Valid()
      modifies this
      ensures Valid()
      ensures r == OutcomeOf(InsertAdmin(old(rows), a))
      ensures rows == if r.Pass? then InsertAdmin(old(rows), a).value else old(rows)
    {
      match InsertAdmin(rows, a)
      case Failure(e) => r := Fail(e);
      case Success(next) => rows := next; r := Pass;
    }

    method UpdateRecord(a: Administrator) returns (r: Outcome<SqlError>)
      requires Valid()
      modifies this
      ensures Valid()
      ensures r == OutcomeOf(UpdateAdmin(old(rows), a))
      ensures rows == if r.Pass? then UpdateAdmin(old(rows), a).value else old(rows)
    {
      match UpdateAdmin(rows, a)
      case Failure(e) => r := Fail(e);
      case Success(next) => rows := next; r := Pass;
    }

    /** SELECT * ... WHERE id = ?, copying the (at most one) result row. */
    method FindOneRecord(id: Option<string>) returns (a: Administrator)
      ensures a == FindAdmin(rows, id)
    {
      var resultSet: seq<(string, AdminRow)> := if id.Some? && id.value in rows then [(id.value, rows[id.value])] else [];
      a := NoAdministrator;
      for i := 0 to |resultSet|
        invariant i == 0 ==> a == NoAdministrator
        invariant i > 0 ==> a == FindAdmin(rows, id)
      {
        var (key, row) := resultSet[i];
        a := a.(id := Some(key), firstName := Some(row.firstName), lastName := Some(row.lastName));
        a := a.(email := row.email, phone := row.phone);
        if row.userAccount.Some? {
          a := a.(userAccount := Some(UserAccount(row.userAccount, Some(""), Some(""), Some(""))));
        }
      }
    }

    /** SELECT * ... WHERE userAccount = <the account's name>: the fields of
        the last row the result set returns, or the all-null record when no
        administrator references the account. */
    method FindByAccount(account: UserAccount) returns (a: Administrator)
      ensures Holders(rows, account) == {} ==> a == NoAdministrator
      ensures Holders(rows, account) != {} ==>
        exists id :: id in Holders(rows, account) && a == HolderRecord(id, rows[id])
    {
      var unread := Holders(rows, account);
      a := NoAdministrator;
      while unread != {}
        invariant unread <= Holders(rows, account)
        invariant unread == Holders(rows, account) ==> a == NoAdministrator
        invariant unread != Holders(rows, account) ==>
          exists id :: id in Holders(rows, account) && a == HolderRecord(id, rows[id])
        decreases unread
      {
        var id :| id in unread;
        var row := rows[id];
        a := a.(id := Some(id), firstName := Some(row.firstName), lastName := Some(row.lastName));
        a := a.(email := row.email, phone := row.phone);
        unread := unread - {id};
      }
    }

    /** The adapter's own copy of `encrypt`. */
    method Encrypt(password: string, salt: string) returns (r: string)
      ensures r == Encrypted(crypto, password, salt)
    {
      var saltedPassword := password + salt;
      var passBytes := crypto.getBytes(saltedPassword);
      var passHash := crypto.sha256(passBytes);
      var sb := "";
      for i := 0 to |passHash|
        invariant sb == HexText(passHash[..i])
      {
        HexTextSnoc(passHash[..i], passHash[i]);
        assert passHash[..i + 1] == passHash[..i] + [passHash[i]];
        sb := sb + HexPair(passHash[i]);
      }
      assert passHash[..|passHash|] == passHash;
      r := sb;
    }
  }
}
