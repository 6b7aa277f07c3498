/** The Manage User Accounts form: a combo box holding "New" and every
    stored name, and a form that is either creating a new account or
    editing the selected one. */
module ManageUserAccounts {
  import opened Wrappers
  import opened JavaLang
  import opened Entities
  import opened Sql
  import opened UserAccountStore
  import opened Digests
  import opened Login

  /** Everything the form shows apart from its alerts. */
  datatype FormView = FormView(
    userList: seq<string>,
    selectedItem: Option<string>,
    creatingNewUser: bool,
    currentUserAccount: Option<UserAccount>,
    emailField: Option<string>,
    usernameField: Option<string>,
    passwordField: Option<string>,
    confirmPasswordField: Option<string>,
    deleteDisabled: bool)

  const NewItem := "New"
  const PlaceholderSalt := "someSalt"
  const NewAccountType := "agent"

  /** The account the create mode inserts: the typed name with the raw
      password text, a fixed salt and type "agent". */
  function NewAccount(username: Option<string>, password: Option<string>): UserAccount
  {
    UserAccount(username, password, Some(PlaceholderSalt), Some(NewAccountType))
  }

  /** The account the edit mode writes back: name, password and salt are
      overwritten, the type is kept. */
  function EditedAccount(current: UserAccount, username: Option<string>, password: Option<string>): UserAccount
  {
    current.(name := username, encryptedPassword := password, passwordSalt := Some(PlaceholderSalt))
  }

  /** Whether both password fields hold the same text. */
  predicate PasswordsAgree(password: Option<string>, confirmation: Option<string>)
  {
    password.Some? && password == confirmation
  }

  /** Editing cannot rename: when the typed name differs from the stored
      one, the update writes only the row of the typed name (if any) and
      the stored row survives as it was. */
  lemma EditKeepsStoredRow(rows: AccountRows, current: UserAccount, username: Option<string>, password: Option<string>)
    requires current.name.Some? && current.name.value in rows && Str(username) != current.name.value
    requires Update(rows, EditedAccount(current, username, password)).Success?
    ensures var next := Update(rows, EditedAccount(current, username, password)).value;
      next[current.name.value] == rows[current.name.value]
      && (Str(username) !in rows ==> next == rows)
  {
    UpdateNeverRenames(rows, EditedAccount(current, username, password), current.name.value);
  }

  /** A created account reads back with the typed name, the raw password,
      the placeholder salt and type "agent". */
  lemma CreatedAccountReadsBack(rows: AccountRows, username: string, password: string)
    requires Insert(rows, NewAccount(Some(username), Some(password))).Success?
    ensures Find(Insert(rows, NewAccount(Some(username), Some(password))).value, username)
      == UserAccount(Some(username), Some(password), Some(PlaceholderSalt), Some(NewAccountType))
  {
    InsertThenFind(rows, NewAccount(Some(username), Some(password)));
  }

  /** A created account stores the raw password text where the login
      expects a hash: logging in with `typed` succeeds exactly when that
      text equals the hash of `typed` under the placeholder salt, so any
      password whose length is not 64 can never be used to log in. */
  lemma CreatedAccountLogin(rows: AccountRows, c: Crypto, username: string, password: string, typed: string)
    requires Insert(rows, NewAccount(Some(username), Some(password))).Success?
    ensures var next := Insert(rows, NewAccount(Some(username), Some(password))).value;
      Check(next, c, username, typed).Granted? <==> password == Encrypted(c, typed, PlaceholderSalt)
    ensures |password| != 2 * DigestLength ==>
      !Check(Insert(rows, NewAccount(Some(username), Some(password))).value, c, username, typed).Granted?
  {
  }

  /** The current account once `saveUser` has written: in edit mode with
      agreeing passwords the account object itself is overwritten with the
      typed name and password, whether or not the update then succeeds. */
  function AfterWrite(v: FormView): Option<UserAccount>
  {
    if PasswordsAgree(v.passwordField, v.confirmPasswordField) && !v.creatingNewUser && v.currentUserAccount.Some?
    then Some(EditedAccount(v.currentUserAccount.value, v.usernameField, v.passwordField))
    else v.currentUserAccount
  }

  /** The outcome of `saveUser`'s write: the new table, the alert shown,
      and whether the write succeeded. */
  datatype SaveResult = SaveResult(rows: AccountRows, notice: Notice, saved: bool)

  /** The write `saveUser` performs from the form's state: disagreeing
      passwords are refused; create mode inserts `NewAccount`; edit mode
      updates `EditedAccount` of the current account, and a missing current
      account throws a NullPointerException. Every exception is shown as
      "Save Error" and leaves the table as it was. */
  function Save(rows: AccountRows, creating: bool, current: Option<UserAccount>,
                username: Option<string>, password: Option<string>, confirmation: Option<string>): (r: SaveResult)
    ensures !PasswordsAgree(password, confirmation) ==>
      r == SaveResult(rows, Notice("Password Error", Some("Passwords do not match.")), false)
    ensures r.saved <==> r.notice.title == "Success"
    ensures !r.saved ==> r.rows == rows
    ensures !r.saved && PasswordsAgree(password, confirmation) ==> r.notice.title == "Save Error"
    ensures PasswordsAgree(password, confirmation) && creating ==>
      var res := Insert(rows, NewAccount(username, password));
      (r.saved <==> res.Success?) && (r.saved ==> r.rows == res.value)
    ensures PasswordsAgree(password, confirmation) && !creating ==>
      (r.saved <==> current.Some? && Update(rows, EditedAccount(current.value, username, password)).Success?)
      && (r.saved ==> r.rows == Update(rows, EditedAccount(current.value, username, password)).value)
    ensures WellFormed(rows) ==> WellFormed(r.rows)
  {
    if !PasswordsAgree(password, confirmation) then
      SaveResult(rows, Notice("Password Error", Some("Passwords do not match.")), false)
    else if creating then
      match Insert(rows, NewAccount(username, password))
      case Failure(e) => SaveResult(rows, Notice("Save Error", Some(SqlState(e))), false)
      case Success(next) => SaveResult(next, Notice("Success", Some("New user account created.")), true)
    else if current.None? then
      SaveResult(rows, Notice("Save Error", None), false)
    else
      match Update(rows, EditedAccount(current.value, username, password))
      case Failure(e) => SaveResult(rows, Notice("Save Error", Some(SqlState(e))), false)
      case Success(next) => SaveResult(next, Notice("Success", Some("User account updated.")), true)
  }

  /** Saving never removes an account, and adds at most the typed name. */
  lemma SaveKeepsAccounts(rows: AccountRows, creating: bool, current: Option<UserAccount>,
                          username: Option<string>, password: Option<string>, confirmation: Option<string>)
    ensures rows.Keys <= Save(rows, creating, current, username, password, confirmation).rows.Keys
    ensures Save(rows, creating, current, username, password, confirmation).rows.Keys <= rows.Keys + {Str(username)}
  {
  }

  class ManageUserAccountsController {
    const accounts: UserAccountTableAdapter
    /** The combo box's items and its selected item. */
    var userList: seq<string>
    var selectedItem: Option<string>
    var creatingNewUser: bool
    var currentUserAccount: Option<UserAccount>
    var emailField: Option<string>
    var usernameField: Option<string>
    var passwordField: Option<string>
    var confirmPasswordField: Option<string>
    var deleteDisabled: bool
    /** The alerts shown, oldest first. */
    var notices: seq<Notice>

    function View(): FormView
      reads this
    {
      FormView(userList, selectedItem, creatingNewUser, currentUserAccount,
               emailField, usernameField, passwordField, confirmPasswordField, deleteDisabled)
    }

    /** The form ready for a new account. */
    ghost predicate CreateForm()
      reads this
    {
      creatingNewUser && currentUserAccount.None? && deleteDisabled
      && emailField == Some("") && usernameField == Some("")
      && passwordField == Some("") && confirmPasswordField == Some("")
    }

    /** The form editing the account stored under `name` (all null when
        there is none), showing its name and empty password fields. */
    ghost predicate EditForm(name: string)
      reads this, accounts
    {
      !creatingNewUser && currentUserAccount == Some(Find(accounts.rows, name)) && !deleteDisabled
      && emailField == Some("") && usernameField == Find(accounts.rows, name).name
      && passwordField == Some("") && confirmPasswordField == Some("")
    }

    /** The form a selection leads to. */
    ghost predicate ShowsSelection()
      reads this, accounts
    {
      selectedItem.Some? && (if selectedItem.value == NewItem then CreateForm() else EditForm(selectedItem.value))
    }

    /** The combo box lists "New" and then every stored name once. */
    ghost predicate ListsAccounts()
      reads this, accounts
    {
      |userList| >= 1 && userList[0] == NewItem && ListsKeys(userList[1..], accounts.rows)
    }

    /** The FXML-loaded form (empty text fields, edit mode, no current
        account) after `setDataStore`, which loads the list. */
    constructor (accounts: UserAccountTableAdapter)
      requires accounts.Valid()
      ensures this.accounts == accounts
      ensures ListsAccounts() && selectedItem == Some(NewItem) && CreateForm()
      ensures notices == []
    {
      this.accounts := accounts;
      userList := [];
      selectedItem := None;
      creatingNewUser := false;
      currentUserAccount := None;
      emailField, usernameField, passwordField, confirmPasswordField := Some(""), Some(""), Some(""), Some("");
      deleteDisabled := false;
      notices := [];
      new;
      LoadUserList();
    }

    /** Refill the list with "New" and the stored names, select "New" and
        show the empty form. */
    method LoadUserList()
      modifies this
      ensures ListsAccounts() && selectedItem == Some(NewItem) && CreateForm()
      ensures notices == old(notices)
    {
      var allUsers := accounts.GetAllKeys();
      userList := [];
      userList := userList + [NewItem];
      userList := userList + allUsers;
      assert userList[1..] == allUsers;
      selectedItem := Some(NewItem);
      HandleUserSelection();
    }

    /** React to the combo box's selection: nothing for no selection, an
        empty form in create mode for "New", the stored account in edit
        mode for any other name. */
    method HandleUserSelection()
      modifies this
      ensures selectedItem.None? ==> unchanged(this)
      ensures selectedItem.Some? ==> ShowsSelection()
      ensures userList == old(userList) && selectedItem == old(selectedItem) && notices == old(notices)
    {
      var selected := selectedItem;
      if selected.None? {
        return;
      }
      if selected.value == NewItem {
        creatingNewUser := true;
        currentUserAccount := None;
        emailField := Some("");
        usernameField := Some("");
        passwordField := Some("");
        confirmPasswordField := Some("");
        deleteDisabled := true;
      } else {
        creatingNewUser := false;
        var found := accounts.FindOneRecord(selected);
        currentUserAccount := Some(found);
        emailField := Some("");
        usernameField := found.name;
        passwordField := Some("");
        confirmPasswordField := Some("");
        deleteDisabled := false;
      }
    }

    /** The combo box's `select(item)`: an item outside the list is still
        taken as the selected item. */
    method Select(item: Option<string>)
      modifies this
      ensures selectedItem == item
      ensures View() == old(View()).(selectedItem := item) && notices == old(notices)
    {
      selectedItem := item;
    }

    /** The write half of `saveUser`: check the passwords, then insert or
        update, showing the outcome. In edit mode the current account object
        itself is overwritten before the update runs. */
    method WriteAccount() returns (saved: bool)
      requires accounts.Valid()
      modifies this, accounts
      ensures accounts.Valid()
      ensures var r := Save(old(accounts.rows), old(creatingNewUser), old(currentUserAccount),
                            old(usernameField), old(passwordField), old(confirmPasswordField));
        saved == r.saved && accounts.rows == r.rows && notices == old(notices) + [r.notice]
      ensures View() == old(View()).(currentUserAccount := AfterWrite(old(View())))
    {
      saved := false;
      if passwordField.None? || passwordField != confirmPasswordField {
        notices := notices + [Notice("Password Error", Some("Passwords do not match."))];
        return;
      }
      if creatingNewUser {
        var newAccount := NewAccount(usernameField, passwordField);
        var r := accounts.AddNewRecord(newAccount);
        if r.Fail? {
          notices := notices + [Notice("Save Error", Some(SqlState(r.error)))];
          return;
        }
        notices := notices + [Notice("Success", Some("New user account created."))];
      } else {
        if currentUserAccount.None? {
          notices := notices + [Notice("Save Error", None)];
          return;
        }
        currentUserAccount := Some(EditedAccount(currentUserAccount.value, usernameField, passwordField));
        var r := accounts.UpdateRecord(currentUserAccount.value);
        if r.Fail? {
          notices := notices + [Notice("Save Error", Some(SqlState(r.error)))];
          return;
        }
        notices := notices + [Notice("Success", Some("User account updated."))];
      }
      saved := true;
    }

    /** `saveUser` as written: after a successful write the list is
        reloaded and the combo box is told to select the username field,
        which the reload has just emptied. The form therefore ends editing
        the account named "", whatever name was saved. */
    method SaveUser()
      requires accounts.Valid()
      modifies this, accounts
      ensures accounts.Valid()
      ensures var r := Save(old(accounts.rows), old(creatingNewUser), old(currentUserAccount),
                            old(usernameField), old(passwordField), old(confirmPasswordField));
        accounts.rows == r.rows && notices == old(notices) + [r.notice]
        && (r.saved ==> ListsAccounts() && selectedItem == Some("") && EditForm(""))
      ensures !Save(old(accounts.rows), old(creatingNewUser), old(currentUserAccount),
                    old(usernameField), old(passwordField), old(confirmPasswordField)).saved ==>
        View() == old(View()).(currentUserAccount := AfterWrite(old(View())))
    {
      var saved := WriteAccount();
      if saved {
        LoadUserList();
        Select(usernameField);
        HandleUserSelection();
      }
    }

    /** `saveUser` re-selecting the saved account, as its reload step
        intends: the typed name is taken before the reload empties the
        field. A saved name other than "New" ends in edit mode on that name,
        and a created account is shown under the name it was given. */
    method SaveUserReselecting()
      requires accounts.Valid()
      modifies this, accounts
      ensures accounts.Valid()
      ensures var r := Save(old(accounts.rows), old(creatingNewUser), old(currentUserAccount),
                            old(usernameField), old(passwordField), old(confirmPasswordField));
        accounts.rows == r.rows && notices == old(notices) + [r.notice]
        && (r.saved ==> ListsAccounts() && selectedItem == old(usernameField))
        && (r.saved && old(usernameField).Some? && old(usernameField).value != NewItem ==>
              EditForm(old(usernameField).value))
        && (r.saved && old(creatingNewUser) && old(usernameField).Some? && old(usernameField).value != NewItem ==>
              usernameField == old(usernameField))
      ensures !Save(old(accounts.rows), old(creatingNewUser), old(currentUserAccount),
                    old(usernameField), old(passwordField), old(confirmPasswordField)).saved ==>
        View() == old(View()).(currentUserAccount := AfterWrite(old(View())))
    {
      var typedName := usernameField;
      var saved := WriteAccount();
      if saved {
        LoadUserList();
        Select(typedName);
        HandleUserSelection();
      }
    }

    /** Delete the current account (by its name as concatenated text) and
        reload the list; with no current account only an alert is shown. */
    method DeleteUser()
      requires accounts.Valid()
      modifies this, accounts
      ensures accounts.Valid()
      ensures old(currentUserAccount).None? ==>
        notices == old(notices) + [Notice("No Selection", Some("No user selected to delete."))]
        && View() == old(View()) && unchanged(accounts)
      ensures old(currentUserAccount).Some? ==>
        accounts.rows == Delete(old(accounts.rows), old(currentUserAccount).value)
        && notices == old(notices) + [Notice("Success", Some("User account deleted."))]
        && ListsAccounts() && selectedItem == Some(NewItem) && CreateForm()
    {
      if currentUserAccount.None? {
        notices := notices + [Notice("No Selection", Some("No user selected to delete."))];
        return;
      }
      accounts.DeleteOneRecord(currentUserAccount.value);
      notices := notices + [Notice("Success", Some("User account deleted."))];
      LoadUserList();
    }
  }
}
