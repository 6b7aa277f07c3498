/** The login dialog: look the typed name up, compare the salted hash of
    the typed password with the stored one, and open an administrator's
    session. */
module Login {
  import opened Wrappers
  import opened JavaLang
  import opened Digests
  import opened Entities
  import opened Sql
  import opened UserAccountStore
  import opened AdministratorStore
  import opened MainWindow

  /** What `authorize` concludes about a name and a password. */
  datatype Verdict = IncorrectUsername | WrongPassword | Granted(account: UserAccount)

  /** The decision `authorize` takes on the table `rows`: an unknown name is
      refused, a known one is granted exactly when hashing the typed
      password with the stored salt reproduces the stored hash. */
  function Check(rows: AccountRows, c: Crypto, user: string, password: string): (v: Verdict)
    ensures v == IncorrectUsername <==> user !in rows
    ensures v.Granted? <==>
      user in rows && rows[user].encryptedPassword == Encrypted(c, password, rows[user].passwordSalt)
    ensures v.Granted? ==> v.account == Find(rows, user) && Complete(v.account)
  {
    var account := Find(rows, user);
    if account.name.None? then IncorrectUsername
    else if Some(Encrypted(c, password, Str(account.passwordSalt))) == account.encryptedPassword then Granted(account)
    else WrongPassword
  }

  /** The verdict on a name depends on that name's row alone. */
  lemma CheckIsLocal(rows1: AccountRows, rows2: AccountRows, c: Crypto, user: string, password: string)
    requires user in rows1 <==> user in rows2
    requires user in rows1 ==> rows1[user] == rows2[user]
    ensures Check(rows1, c, user, password) == Check(rows2, c, user, password)
  {
  }

  /** After a complete seeding the default credentials admin/admin are
      granted, with an account of type "admin". */
  lemma DefaultAdminGranted(t: Tables, c: Crypto, seed: int32)
    requires Seed(t, c, seed).1.Pass?
    ensures var v := Check(Seed(t, c, seed).0.accounts, c, DefaultAccountName, DefaultPassword);
      v.Granted? && v.account.accountType == Some("admin")
  {
    SeededAdminCanLogIn(t, c, seed);
  }

  /** The name shown in the user menu after an administrator logs in: the
      account "admin" is shown as "Admin", any other as the administrator's
      first and last names, each "null" when absent. */
  function FullName(accountName: string, admin: Administrator): string
  {
    if accountName == DefaultAccountName then "Admin" else Str(admin.firstName) + " " + Str(admin.lastName)
  }

  class LoginController {
    /** The error label under the form. */
    var errorMsg: string
    /** Whether the dialog's stage has been closed. */
    var closed: bool
    const main: IGlobalController
    const accounts: UserAccountTableAdapter
    /** The administrator table `authenticated` opens. */
    const admins: AdministratorTableAdapter

    ghost predicate Valid()
      reads this, accounts, admins, admins.accounts
    {
      accounts.Valid() && admins.Valid() && admins.accounts == accounts && admins.crypto == main.crypto
    }

    /** The loaded dialog after `setIGlobalController` and `setDataStore`;
        `initialize` clears the error label. */
    constructor (main: IGlobalController, accounts: UserAccountTableAdapter, admins: AdministratorTableAdapter)
      requires accounts.Valid() && admins.Valid() && admins.accounts == accounts && admins.crypto == main.crypto
      ensures Valid()
      ensures this.main == main && this.accounts == accounts && this.admins == admins
      ensures errorMsg == "" && !closed
    {
      this.main := main;
      this.accounts := accounts;
      this.admins := admins;
      errorMsg := "";
      closed := false;
    }

    method Authorize(user: string, password: string, seed: int32)
      requires Valid()
      modifies this, main, admins, accounts
      ensures Valid()
      ensures var v := Check(old(accounts.rows), main.crypto, user, password);
        && (v == IncorrectUsername ==> errorMsg == "Incorrect username")
        && (v == WrongPassword ==> errorMsg == "Wrong password")
        && (!v.Granted? ==> closed == old(closed) && unchanged(main, admins, accounts))
        && (v.Granted? ==>
              errorMsg == "" && closed && main.userAccountName == Some(user) && main.alerts == old(main.alerts))
        && (v.Granted? && v.account.accountType != Some("admin") ==>
              main.CurrentMenus() == old(main.CurrentMenus()) && main.userFullname == old(main.userFullname)
              && unchanged(admins, accounts))
        && (v.Granted? && v.account.accountType == Some("admin") ==>
              main.CurrentMenus() == AdminSession
              && admins.Contents() == Seed(old(admins.Contents()), admins.crypto, seed).0)
        && (v.Granted? && v.account.accountType == Some("admin") && user == DefaultAccountName ==>
              main.userFullname == "Admin")
        && (v.Granted? && v.account.accountType == Some("admin") && user != DefaultAccountName
            && Holders(admins.rows, v.account) == {} ==>
              main.userFullname == "null null")
        && (v.Granted? && v.account.accountType == Some("admin") && user != DefaultAccountName
            && Holders(admins.rows, v.account) != {} ==>
              exists id :: id in Holders(admins.rows, v.account)
                && main.userFullname == admins.rows[id].firstName + " " + admins.rows[id].lastName)
    {
      errorMsg := "";
      var account := accounts.FindOneRecord(Some(user));
      if account.name.None? {
        errorMsg := "Incorrect username";
      } else {
        var salt := account.passwordSalt;
        var encryptedPassword := main.Encrypt(password, Str(salt));
        var retrievedEncryptedPassword := account.encryptedPassword;
        if Some(encryptedPassword) == retrievedEncryptedPassword {
          Authenticated(account, account.accountType, seed);
        } else {
          errorMsg := "Wrong password";
        }
      }
    }

    /** Record the account name; for an administrator, open the
        administrator table (which re-attempts the seeding), look up who
        holds the account, show their name and switch the menus to the
        administrator's; then close the dialog. Other account types only get
        their name recorded. */
    method Authenticated(userAccount: UserAccount, privilege: Option<string>, seed: int32)
      requires Valid()
      requires privilege.Some? && (privilege.value == "admin" ==> userAccount.name.Some?)
      modifies this, main, admins, accounts
      ensures Valid()
      ensures closed && errorMsg == old(errorMsg)
      ensures main.userAccountName == userAccount.name && main.alerts == old(main.alerts)
      ensures privilege.value != "admin" ==>
        main.CurrentMenus() == old(main.CurrentMenus()) && main.userFullname == old(main.userFullname)
        && unchanged(admins, accounts)
      ensures privilege.value == "admin" ==>
        admins.Contents() == Seed(old(admins.Contents()), admins.crypto, seed).0
        && main.CurrentMenus() == AdminSession
      ensures privilege.value == "admin" && userAccount.name.value == DefaultAccountName ==>
        main.userFullname == "Admin"
      ensures privilege.value == "admin" && userAccount.name.value != DefaultAccountName
              && Holders(admins.rows, userAccount) == {} ==>
        main.userFullname == "null null"
      ensures privilege.value == "admin" && userAccount.name.value != DefaultAccountName
              && Holders(admins.rows, userAccount) != {} ==>
        exists id :: id in Holders(admins.rows, userAccount)
          && main.userFullname == admins.rows[id].firstName + " " + admins.rows[id].lastName
    {
      main.SetUserName(userAccount.name);
      if privilege.value == "admin" {
        admins.Open(false, seed);
        var admin := admins.FindByAccount(userAccount);
        main.SetUserFullname(FullName(userAccount.name.value, admin));
        main.EnableAdminControls();
      }
      closed := true;
    }
  }
}
