/** The change-password dialog of the logged-in user. */
module PasswordChange {
  import opened Wrappers
  import opened JavaLang
  import opened Digests
  import opened Entities
  import opened Sql
  import opened UserAccountStore
  import opened MainWindow
  import opened Login

  /** The row `changePassword` writes: the new password hashed under a
      fresh salt, the account type kept. */
  function ChangedRow(row: AccountRow, c: Crypto, newPassword: string, salt: string): AccountRow
  {
    AccountRow(Encrypted(c, newPassword, salt), salt, row.accountType)
  }

  /** After the change the new password is granted for that name. */
  lemma NewPasswordGranted(rows: AccountRows, c: Crypto, name: string, newPassword: string, salt: string)
    requires name in rows
    ensures Check(rows[name := ChangedRow(rows[name], c, newPassword, salt)], c, name, newPassword).Granted?
  {
  }

  /** The change touches one row only: for every other name the login
      verdict is what it was. */
  lemma OtherVerdictsKept(rows: AccountRows, c: Crypto, name: string, newPassword: string, salt: string,
                          other: string, password: string)
    requires name in rows && other != name
    ensures Check(rows[name := ChangedRow(rows[name], c, newPassword, salt)], c, other, password)
      == Check(rows, c, other, password)
  {
    CheckIsLocal(rows[name := ChangedRow(rows[name], c, newPassword, salt)], rows, c, other, password);
  }

  class ChangePasswordController {
    var loggedInUser: string
    var userAccountName: Option<string>
    /** The heading label of the dialog. */
    var usernameLabel: string
    var errorMsg: string
    var closed: bool
    const main: IGlobalController
    const accounts: UserAccountTableAdapter

    /** The loaded dialog after `setDataStore` and `setIGlobalController`,
        which copies the main window's user names at that moment. */
    constructor (main: IGlobalController, accounts: UserAccountTableAdapter)
      ensures this.main == main && this.accounts == accounts
      ensures loggedInUser == main.userFullname && userAccountName == main.userAccountName
      ensures usernameLabel == "Change password for " + main.userFullname
      ensures errorMsg == "" && !closed
    {
      this.main := main;
      this.accounts := accounts;
      loggedInUser := main.userFullname;
      userAccountName := main.userAccountName;
      usernameLabel := "Change password for " + main.userFullname;
      errorMsg := "";
      closed := false;
    }

    /** Check the old password exactly as the login does (for the name
        copied when the dialog opened, "null" if none), then require the two
        new entries to agree; on success store the new hash and the salt
        `seed` gives, close the dialog and log out. */
    method ChangePassword(oldPassword: string, newPassword1: string, newPassword2: string, seed: int32)
      requires accounts.Valid()
      modifies this, main, accounts
      ensures accounts.Valid()
      ensures loggedInUser == old(loggedInUser) && userAccountName == old(userAccountName)
      ensures usernameLabel == old(usernameLabel)
      ensures var key := Str(userAccountName);
        var v := Check(old(accounts.rows), main.crypto, key, oldPassword);
        && (!v.Granted? ==> errorMsg == "Wrong old password")
        && (v.Granted? && newPassword1 != newPassword2 ==> errorMsg == "The new passwords do not match")
        && (!v.Granted? || newPassword1 != newPassword2 ==>
              closed == old(closed) && unchanged(main, accounts))
        && (v.Granted? && newPassword1 == newPassword2 ==>
              errorMsg == "" && closed
              && accounts.rows == old(accounts.rows)[key := ChangedRow(old(accounts.rows)[key], main.crypto, newPassword1, DecimalText(seed))]
              && main.CurrentMenus() == LoggedOut
              && main.userAccountName == old(main.userAccountName) && main.userFullname == old(main.userFullname)
              && main.alerts == old(main.alerts))
    {
      errorMsg := "";
      var account := accounts.FindOneRecord(userAccountName);
      var salt := account.passwordSalt;
      var encryptedPassword := main.Encrypt(oldPassword, Str(salt));
      var retrievedEncryptedPassword := account.encryptedPassword;
      if Some(encryptedPassword) == retrievedEncryptedPassword {
        if newPassword1 == newPassword2 {
          var newSalt := DecimalText(seed);
          var encryptedNewPassword := main.Encrypt(newPassword1, newSalt);
          account := account.(encryptedPassword := Some(encryptedNewPassword), passwordSalt := Some(newSalt));
          DecimalTextShape(seed);
          var r := accounts.UpdateRecord(account);
          // The row fits: a 64-digit hash, a salt of at most 11 characters,
          // the stored name and type; so the update cannot throw.
          assert r.Pass?;
          closed := true;
          main.Logout();
        } else {
          errorMsg := "The new passwords do not match";
        }
      } else {
        errorMsg := "Wrong old password";
      }
    }
  }
}
