# iGlobal credentials and accounts, modelled in Dafny

iGlobal is a JavaFX real-estate office application backed by an embedded
Derby database. This project models its credential and account core:

- how `encrypt` turns a password and a salt into the stored text. The text
  is the SHA-256 digest of `password + salt` as 64 lower-case base-16
  digits, two per byte;
- the login decision and the administrator session it opens;
- the password change of the logged-in user;
- the UserAccount and Administrator tables as keyed maps, including the
  seeding of the default administrator `1` with account `admin`;
- the main window's menu switches;
- the Manage User Accounts form, a create/edit mode machine over the list
  of account names;
- the get-or-insert of province and city in the Add New Property form.

The Java classes are modelled as Dafny classes, one per class:

- Each table adapter object stands for its table. It holds the rows as a
  `map` (UserAccount, Administrator) or as sets and a sequence (Province,
  City, PROPERTY).
- Controllers hold their widgets' state as fields. Widgets include labels,
  text fields, combo-box items and selections, menu switches, shown alerts
  and whether the window was closed.

Every method is proved against a pure function of the old state: `Find`,
`Insert`, `Update`, `Seed`, `Check`, `Save` and `ProvinceStep`/`CityStep`.
The lemmas relate these functions to one another, for example:

- a seeded or changed password is granted at login;
- seeding is idempotent;
- update never renames;
- get-or-insert is idempotent.

Modelling choices:

- **Null.** A Java `String` that may be null is `Option<string>`.
  Concatenating a null gives the text `null` (`JavaLang.Str`). This matters
  because the UserAccount adapter builds its SQL by concatenation, so a null
  name is the key `'null'`.
- **Column constraints.** Column widths, NOT NULL, primary keys and the
  City-to-Province foreign key are modelled as the SQLException they raise.
- **Crypto.** SHA-256 and `String.getBytes()` are the two functions of a
  `Digests.Crypto` value.
- **Random numbers.** Every `new Random().nextInt()` becomes an `int32`
  parameter `seed`. Its salt is `Integer.toString(seed)`, modelled as
  `JavaLang.DecimalText`.

Two consequences of the code as written are proved outright:

- `CreatedAccountLogin`: an account created by the Manage User Accounts
  form stores its raw password where the login expects a hash. It can be
  logged into only if that text equals the hash of the typed password under
  the salt "someSalt".
- `SaveUser` (see Findings): after a successful save, the form ends editing
  the account named "", and no longer the saved one. Pressing Delete at that
  point deletes the account named `null`, because the current account is the
  all-null record.

## Model

| member | source | states |
|---|---|---|
| JavaLang.NatText | src/main/java/se2203b/iGlobal/IGlobalController.java:266 | `Integer.toString(n, radix)` of a non-negative value is never empty |
| JavaLang.NatTextDigits | src/main/java/se2203b/iGlobal/IGlobalController.java:266 | every character of `Integer.toString(n, radix)` is a digit of that radix |
| JavaLang.NatTextValue | src/main/java/se2203b/iGlobal/IGlobalController.java:266 | the digits of `Integer.toString(n, radix)` read back as n |
| JavaLang.NatTextLength | src/main/java/se2203b/iGlobal/AdministratorTableAdapter.java:86 | a value below radix^k has at most k digits |
| JavaLang.DecimalTextShape | src/main/java/se2203b/iGlobal/AdministratorTableAdapter.java:86 | a salt is 1 to 11 characters, all decimal digits except a leading '-', so it fits passwordSalt VARCHAR(50) |
| JavaLang.DecimalRoundTrip | src/main/java/se2203b/iGlobal/ChangePasswordController.java:72 | the salt text determines the random int it came from (read back by the model's own decimal parser, which the program never calls), so `Integer.toString` is injective on salts |
| JavaLang.DecimalTextInjective | src/main/java/se2203b/iGlobal/ChangePasswordController.java:72 | different random ints give different salts |
| Digests.Unsigned | src/main/java/se2203b/iGlobal/IGlobalController.java:266 | `b & 0xff` is in [0, 256) and agrees with b modulo 256 |
| Digests.HexPair | src/main/java/se2203b/iGlobal/IGlobalController.java:266 | `Integer.toString((b & 0xff) + 0x100, 16).substring(1)` is exactly the high and the low hex digit of the byte, keeping a leading zero |
| Digests.HexText | src/main/java/se2203b/iGlobal/IGlobalController.java:264-268 | the rendered digest has two characters per byte, all from [0-9a-f] |
| Digests.HexPairDecodes | src/main/java/se2203b/iGlobal/IGlobalController.java:266 | the two digits of a byte decode back to that byte |
| Digests.HexRoundTrip | src/main/java/se2203b/iGlobal/IGlobalController.java:265-267 | decoding the hex text gives back the digest bytes |
| Digests.HexTextInjective | src/main/java/se2203b/iGlobal/IGlobalController.java:265-267 | different digests never give the same hex text |
| Digests.HexTextSnoc | src/main/java/se2203b/iGlobal/IGlobalController.java:265-267 | appending one byte appends its two digits (the loop's step) |
| Digests.Encrypted | src/main/java/se2203b/iGlobal/IGlobalController.java:258-272 | `encrypt(password, salt)` is 64 hex digits that decode to SHA-256 of the bytes of password + salt |
| Digests.EncryptedMatch | src/main/java/se2203b/iGlobal/LoginController.java:53-55 | two hash texts are equal exactly when the digests of the two salted passwords are equal |
| UserAccountStore.Find | src/main/java/se2203b/iGlobal/UserAccountTableAdapter.java:113-131 | a stored name yields its four fields, all set; an absent name yields the all-null account |
| UserAccountStore.Insert | src/main/java/se2203b/iGlobal/UserAccountTableAdapter.java:60-77 | insert succeeds exactly when the name is new and the values fit their widths; it then adds one row and keeps all others |
| UserAccountStore.Update | src/main/java/se2203b/iGlobal/UserAccountTableAdapter.java:86-103 | update matches the record's own name: it replaces that row if present, changes nothing otherwise, and never adds or removes a key |
| UserAccountStore.Delete | src/main/java/se2203b/iGlobal/UserAccountTableAdapter.java:149-159 | delete removes only the row of that name |
| UserAccountStore.InsertThenFind | src/main/java/se2203b/iGlobal/UserAccountTableAdapter.java:113-131 | after adding a complete account, finding its name returns its four fields |
| UserAccountStore.InsertExistingFails | src/main/java/se2203b/iGlobal/UserAccountTableAdapter.java:60-77 | adding a stored name fails with a duplicate key, because the name is the primary key |
| UserAccountStore.UpdateThenFind | src/main/java/se2203b/iGlobal/UserAccountTableAdapter.java:86-103 | after updating a stored account, finding it returns the written fields |
| UserAccountStore.UpdateNeverRenames | src/main/java/se2203b/iGlobal/UserAccountTableAdapter.java:93-98 | an update under a changed name leaves the old row as it was, and never creates the new name |
| UserAccountStore.UserAccountTableAdapter.constructor | src/main/java/se2203b/iGlobal/UserAccountTableAdapter.java:24-51 | with reset the table is dropped and recreated empty, unless the Administrator table still references it, which makes Derby refuse the DROP; otherwise, and without reset, its rows are kept |
| UserAccountStore.UserAccountTableAdapter.AddNewRecord | src/main/java/se2203b/iGlobal/UserAccountTableAdapter.java:60-77 | the table becomes `Insert`'s result, or stays unchanged with its error |
| UserAccountStore.UserAccountTableAdapter.UpdateRecord | src/main/java/se2203b/iGlobal/UserAccountTableAdapter.java:86-103 | the table becomes `Update`'s result, or stays unchanged with its error |
| UserAccountStore.UserAccountTableAdapter.FindOneRecord | src/main/java/se2203b/iGlobal/UserAccountTableAdapter.java:113-131 | the result-set loop returns `Find` of the key as concatenated text |
| UserAccountStore.UserAccountTableAdapter.DeleteOneRecord | src/main/java/se2203b/iGlobal/UserAccountTableAdapter.java:149-159 | the table becomes `Delete`'s result |
| UserAccountStore.UserAccountTableAdapter.GetAllKeys | src/main/java/se2203b/iGlobal/UserAccountTableAdapter.java:193-206 | one entry per stored name: same members, no repeats, as many as rows |
| UserAccountStore.UserAccountTableAdapter.GetKeys | src/main/java/se2203b/iGlobal/UserAccountTableAdapter.java:215-217 | the same listing as getAllKeys |
| AdministratorStore.InsertAdmin | src/main/java/se2203b/iGlobal/AdministratorTableAdapter.java:98-120 | insert needs id, first and last name non-null, a new id and fitting widths; it leaves userAccount NULL and reads back as the record |
| AdministratorStore.UpdateAdmin | src/main/java/se2203b/iGlobal/AdministratorTableAdapter.java:139-163 | update matches on id: a null or absent id changes nothing; otherwise the row takes every field and the account column |
| AdministratorStore.UpdateThenFindAdmin | src/main/java/se2203b/iGlobal/AdministratorTableAdapter.java:139-188 | after a successful update of a stored id, findOneRecord(id) reads back the written fields, and its account object carries the written account's name |
| AdministratorStore.FindAdmin | src/main/java/se2203b/iGlobal/AdministratorTableAdapter.java:166-188 | an absent id gives the all-null administrator; a stored one gives its row, with an account object only when the column is non-null |
| AdministratorStore.Seed | src/main/java/se2203b/iGlobal/AdministratorTableAdapter.java:70-95 | if id "1" exists, seeding fails and changes nothing; if account "admin" exists, only administrator "1" is added; otherwise both are added and linked, the hash being encrypt("admin", salt) |
| AdministratorStore.SeedIdempotent | src/main/java/se2203b/iGlobal/AdministratorTableAdapter.java:60-64 | seeding again, with any salt, fails on the first insert and changes nothing |
| AdministratorStore.SeededAdminCanLogIn | src/main/java/se2203b/iGlobal/AdministratorTableAdapter.java:85-94 | after a full seeding, account "admin" has type "admin" and a hash of "admin" under its stored salt, and administrator "1" references it |
| AdministratorStore.SeedWellFormed | src/main/java/se2203b/iGlobal/AdministratorTableAdapter.java:85-90 | the seeded rows fit their columns |
| AdministratorStore.AdministratorTableAdapter.constructor | src/main/java/se2203b/iGlobal/AdministratorTableAdapter.java:19-67 | both tables are emptied on reset, then seeded, with the seeding's error ignored |
| AdministratorStore.AdministratorTableAdapter.Open | src/main/java/se2203b/iGlobal/AdministratorTableAdapter.java:19-67 | each `new AdministratorTableAdapter(reset)` over the shared database leaves it as `Seed` says |
| AdministratorStore.AdministratorTableAdapter.AddAmin | src/main/java/se2203b/iGlobal/AdministratorTableAdapter.java:70-95 | the three statements leave both tables, and the outcome, exactly as `Seed` |
| AdministratorStore.AdministratorTableAdapter.AddNewRecord | src/main/java/se2203b/iGlobal/AdministratorTableAdapter.java:98-120 | the table becomes `InsertAdmin`'s result, or stays unchanged with its error |
| AdministratorStore.AdministratorTableAdapter.UpdateRecord | src/main/java/se2203b/iGlobal/AdministratorTableAdapter.java:139-163 | the table becomes `UpdateAdmin`'s result, or stays unchanged with its error |
| AdministratorStore.AdministratorTableAdapter.FindOneRecord | src/main/java/se2203b/iGlobal/AdministratorTableAdapter.java:166-188 | the result-set loop returns `FindAdmin` of the id |
| AdministratorStore.AdministratorTableAdapter.FindByAccount | src/main/java/se2203b/iGlobal/AdministratorTableAdapter.java:191-209 | gives the all-null administrator when nobody references the account, otherwise the fields of one referencing row, without its account |
| AdministratorStore.AdministratorTableAdapter.Encrypt | src/main/java/se2203b/iGlobal/AdministratorTableAdapter.java:122-136 | the adapter's copy of encrypt returns the same text as the main window's |
| MainWindow.MenuStates | src/main/java/se2203b/iGlobal/IGlobalController.java:202-224 | logged out, login is enabled and logout disabled; in an admin session, the reverse. The admin portal and user menu are on only in an admin session; the agent and executive portals are always off |
| MainWindow.IGlobalController.constructor | src/main/java/se2203b/iGlobal/IGlobalController.java:46-56 | initialize leaves the logged-out menus and seeds the default administrator |
| MainWindow.IGlobalController.EnableAdminControls | src/main/java/se2203b/iGlobal/IGlobalController.java:202-212 | the menus become the admin-session switches; nothing else changes |
| MainWindow.IGlobalController.DisableMenuItems | src/main/java/se2203b/iGlobal/IGlobalController.java:214-224 | the menus become the logged-out switches; nothing else changes |
| MainWindow.IGlobalController.Logout | src/main/java/se2203b/iGlobal/IGlobalController.java:107-110 | logout restores the logged-out menus and keeps the account name and the shown full name |
| MainWindow.IGlobalController.SetUserFullname | src/main/java/se2203b/iGlobal/IGlobalController.java:226-228 | the user menu shows the given name; nothing else changes |
| MainWindow.IGlobalController.SetUserName | src/main/java/se2203b/iGlobal/IGlobalController.java:230-232 | the account name becomes the given one; nothing else changes |
| MainWindow.IGlobalController.GetUserFullname | src/main/java/se2203b/iGlobal/IGlobalController.java:234-236 | returns the user menu's text |
| MainWindow.IGlobalController.GetUserAccountName | src/main/java/se2203b/iGlobal/IGlobalController.java:238-240 | returns the last name passed to setUserName |
| MainWindow.IGlobalController.DisplayAlert | src/main/java/se2203b/iGlobal/IGlobalController.java:242-256 | the message is added to the alerts shown |
| MainWindow.IGlobalController.Encrypt | src/main/java/se2203b/iGlobal/IGlobalController.java:258-272 | the StringBuilder loop over the digest returns `Encrypted(password, salt)` |
| Login.Check | src/main/java/se2203b/iGlobal/LoginController.java:46-61 | an unknown name is refused; a known one is granted exactly when hashing the typed password with the stored salt gives the stored hash |
| Login.CheckIsLocal | src/main/java/se2203b/iGlobal/LoginController.java:46-61 | the verdict on a name depends on that name's row alone |
| Login.DefaultAdminGranted | src/main/java/se2203b/iGlobal/AdministratorTableAdapter.java:85-94 | after a full seeding, admin/admin is granted with account type "admin" |
| Login.LoginController.constructor | src/main/java/se2203b/iGlobal/LoginController.java:108-115 | the dialog is wired to the main window and the tables, with an empty error label |
| Login.LoginController.Authorize | src/main/java/se2203b/iGlobal/LoginController.java:42-68 | the label is cleared, then set to "Incorrect username" or "Wrong password" by `Check`, with nothing else changed; on a grant the name is recorded, the alerts stay and the dialog closes; other types keep the menus and the shown name, while type "admin" re-seeds, opens the admin session and shows "Admin", the holder's names, or "null null" |
| Login.LoginController.Authenticated | src/main/java/se2203b/iGlobal/LoginController.java:73-95 | records the name; for "admin" it re-seeds, shows "Admin", the holder's names, or "null null", and enables the admin menus; other types change no menu |
| PasswordChange.NewPasswordGranted | src/main/java/se2203b/iGlobal/ChangePasswordController.java:71-79 | after the change, the new password is granted for that name |
| PasswordChange.OtherVerdictsKept | src/main/java/se2203b/iGlobal/ChangePasswordController.java:76-79 | the change leaves every other name's login verdict as it was |
| PasswordChange.ChangePasswordController.constructor | src/main/java/se2203b/iGlobal/ChangePasswordController.java:51-56 | copies the main window's full name and account name, and titles the dialog with the full name |
| PasswordChange.ChangePasswordController.ChangePassword | src/main/java/se2203b/iGlobal/ChangePasswordController.java:58-100 | a wrong old password (checked first) gives "Wrong old password"; different new entries give "The new passwords do not match", with nothing stored. Otherwise only hash and salt change, to encrypt(new, salt) and the seed's salt; the dialog closes and the user is logged out, keeping the main window's names and alerts; the heading label never changes |
| ManageUserAccounts.EditKeepsStoredRow | src/main/java/se2203b/iGlobal/ManageUserAccountsController.java:139-142 | editing an account's name never renames it: the stored row survives, and a new name that is not stored changes nothing |
| ManageUserAccounts.CreatedAccountReadsBack | src/main/java/se2203b/iGlobal/ManageUserAccountsController.java:129-135 | a created account reads back with the typed name, the raw password, salt "someSalt" and type "agent" |
| ManageUserAccounts.CreatedAccountLogin | src/main/java/se2203b/iGlobal/ManageUserAccountsController.java:132-133 | a created account can be logged into only if its raw password equals the hash of the typed password under "someSalt", so never when its length is not 64 |
| ManageUserAccounts.Save | src/main/java/se2203b/iGlobal/ManageUserAccountsController.java:120-152 | disagreeing or null passwords are refused with "Passwords do not match." and nothing written. Create mode inserts, edit mode updates the current account, and a missing current account fails. Every failure shows "Save Error" and keeps the table |
| ManageUserAccounts.SaveKeepsAccounts | src/main/java/se2203b/iGlobal/ManageUserAccountsController.java:127-144 | saving never removes an account and adds at most the typed name |
| ManageUserAccounts.ManageUserAccountsController.constructor | src/main/java/se2203b/iGlobal/ManageUserAccountsController.java:44-47 | setDataStore loads the list: "New" selected and the empty create form |
| ManageUserAccounts.ManageUserAccountsController.LoadUserList | src/main/java/se2203b/iGlobal/ManageUserAccountsController.java:53-71 | the list is "New" followed by every stored name once; "New" is selected and the form is in create mode |
| ManageUserAccounts.ManageUserAccountsController.HandleUserSelection | src/main/java/se2203b/iGlobal/ManageUserAccountsController.java:79-113 | no selection changes nothing. "New" gives create mode: no current account, four empty fields, delete disabled. Any other name gives edit mode on that name's stored account: its name shown, empty password fields, delete enabled |
| ManageUserAccounts.ManageUserAccountsController.Select | src/main/java/se2203b/iGlobal/ManageUserAccountsController.java:147 | the combo box takes the item as selected even when it is not in the list; every other part of the form stays |
| ManageUserAccounts.ManageUserAccountsController.WriteAccount | src/main/java/se2203b/iGlobal/ManageUserAccountsController.java:122-144 | the table and the alert are as `Save` says; in edit mode with agreeing passwords the current account is overwritten with name, password and salt, keeping the type, even when the update then fails; the rest of the form stays |
| ManageUserAccounts.ManageUserAccountsController.SaveUser | src/main/java/se2203b/iGlobal/ManageUserAccountsController.java:120-152 | the table and the alert are as `Save` says; after a successful save the list is reloaded and the form edits the account named ""; after a failed one the form stays, except for the current account `WriteAccount` overwrote |
| ManageUserAccounts.ManageUserAccountsController.SaveUserReselecting | src/main/java/se2203b/iGlobal/ManageUserAccountsController.java:145-148 | with the name taken before the reload, a successful save re-selects the saved name; it edits that account, and a created account shows its own name; after a failed save the form stays, except for the current account `WriteAccount` overwrote |
| ManageUserAccounts.ManageUserAccountsController.DeleteUser | src/main/java/se2203b/iGlobal/ManageUserAccountsController.java:158-170 | with no current account only "No user selected to delete." is shown; otherwise that name's row is deleted and the list reloaded |
| PropertyTables.InsertProvince | src/main/java/se2203b/iGlobal/ProvinceTableAdapter.java:57-69 | a province is added exactly when its code is new and fits VARCHAR(20) |
| PropertyTables.InsertCity | src/main/java/se2203b/iGlobal/CityTableAdapter.java:64-76 | a city is added exactly when the pair is new, fits, and its province is stored; otherwise a missing province is a foreign-key error |
| PropertyTables.InsertProperty | src/main/java/se2203b/iGlobal/PropertyTableAdapter.java:65-91 | a fitting property is appended as the last row |
| PropertyTables.PropertyDatabase.GetProvinceKeys | src/main/java/se2203b/iGlobal/ProvinceTableAdapter.java:104-117 | every stored province code once |
| PropertyTables.PropertyDatabase.AddProvince | src/main/java/se2203b/iGlobal/ProvinceTableAdapter.java:57-69 | the provinces become `InsertProvince`'s result; the other tables are unchanged |
| PropertyTables.PropertyDatabase.CityExists | src/main/java/se2203b/iGlobal/CityTableAdapter.java:109-122 | true exactly when the (city, province) pair is stored |
| PropertyTables.PropertyDatabase.AddCity | src/main/java/se2203b/iGlobal/CityTableAdapter.java:64-76 | the cities become `InsertCity`'s result; the other tables are unchanged |
| PropertyTables.PropertyDatabase.CitiesInProvince | src/main/java/se2203b/iGlobal/CityTableAdapter.java:85-99 | each city of the province once, and no other |
| PropertyTables.PropertyDatabase.AddProperty | src/main/java/se2203b/iGlobal/PropertyTableAdapter.java:65-91 | the properties become `InsertProperty`'s result; the lookups are unchanged |
| PropertyEntry.ProvinceStep | src/main/java/se2203b/iGlobal/AddNewPropertyController.java:134-140 | the province is inserted exactly when it is absent and not blank; the step fails only when that insert is too wide |
| PropertyEntry.CityStep | src/main/java/se2203b/iGlobal/AddNewPropertyController.java:143-149 | the pair is inserted exactly when it is absent and the city is not blank; the step fails only when that insert does |
| PropertyEntry.Save | src/main/java/se2203b/iGlobal/AddNewPropertyController.java:131-177 | runs province, city, parse and property in order. A parse failure inserts no property but keeps the lookups already added; the saved property carries the typed province and city |
| PropertyEntry.CityAddedExactly | src/main/java/se2203b/iGlobal/AddNewPropertyController.java:145-149 | once the province step succeeds, a city is added exactly when the pair is absent, the city is not blank, and the insert succeeds |
| PropertyEntry.BlankProvinceRejectsNewCity | src/main/java/se2203b/iGlobal/AddNewPropertyController.java:136-146 | a new city under a blank, unstored province stops the save with a foreign-key error and changes nothing |
| PropertyEntry.ProvinceStepIdempotent | src/main/java/se2203b/iGlobal/AddNewPropertyController.java:136 | repeating the province step inserts nothing |
| PropertyEntry.CityStepIdempotent | src/main/java/se2203b/iGlobal/AddNewPropertyController.java:145 | repeating the city step inserts nothing |
| PropertyEntry.SaveTwiceAddsNoLookups | src/main/java/se2203b/iGlobal/AddNewPropertyController.java:136-149 | once a save got past both lookups, saving the same province and city again inserts neither |
| PropertyEntry.AddNewPropertyController.constructor | src/main/java/se2203b/iGlobal/AddNewPropertyController.java:55-91 | the combo boxes hold the property types (first selected), the stored provinces and the cities of the empty province |
| PropertyEntry.AddNewPropertyController.LoadCities | src/main/java/se2203b/iGlobal/AddNewPropertyController.java:101-115 | the city list becomes the cities of the typed province, each once, and the first is selected when there is one |
| PropertyEntry.AddNewPropertyController.AddChosenProvince | src/main/java/se2203b/iGlobal/AddNewPropertyController.java:134-140 | the tables follow `ProvinceStep`, and the province list grows exactly when a province was inserted |
| PropertyEntry.AddNewPropertyController.AddChosenCity | src/main/java/se2203b/iGlobal/AddNewPropertyController.java:143-149 | the tables follow `CityStep`, and the city list grows exactly when a city was inserted |
| PropertyEntry.AddNewPropertyController.SaveProperty | src/main/java/se2203b/iGlobal/AddNewPropertyController.java:131-177 | the tables follow `Save`; each list grows only by an inserted value; the window closes exactly when the property was inserted; otherwise "Input Error" is shown |

## Findings

| source | as written | input that shows it | evidently intended | confidence | as-written member | corrected member |
|---|---|---|---|---|---|---|
| src/main/java/se2203b/iGlobal/ManageUserAccountsController.java:146-148 | `loadUserList()` selects "New", and its `handleUserSelection()` empties `usernameField`; then `select(usernameField.getText())` selects "" | create account "bob" with password "x" confirmed as "x": afterwards the selection is "", the form is in edit mode on the all-null account, and Delete would target the name `null` | re-select the account just saved, as the comment on line 145 says | not executed | ManageUserAccounts.ManageUserAccountsController.SaveUser | ManageUserAccounts.ManageUserAccountsController.SaveUserReselecting |

## Left out

- SHA-256 and `String.getBytes()` are not modelled. They are the two functions of a `Crypto` value, and the proofs hold for every such pair.
- Random salts are not modelled: `Random.nextInt()` is the `seed` parameter.
- JDBC is not modelled: connections and closing them. DDL is modelled only as the contents a constructor leaves behind. Tables are assumed to exist, including PROPERTY, which the adapter creates only on reset, while every construction of it passes no reset.
- SQL built by concatenation is modelled only through its `null` text. Values are assumed to contain no quote, so injection and quoting errors are not modelled.
- The foreign key from Administrator.userAccount to UserAccount is not checked. Deleting a referenced account, which the program refuses with "Delete Error" (SQLSTATE 23503), succeeds in the model, and so does writing an account name that is not stored.
- Date columns (dateCreated) are not modelled.
- Floating-point fields and `Double.parseDouble`/`Integer.parseInt` are not modelled. The parsed numbers are an `Option<Measures>` argument of `SaveProperty`, with `None` for a parse failure. The model accepts any parsed numbers, although Derby's DOUBLE columns refuse NaN and the infinities that `Double.parseDouble` can produce.
- Exception messages are not modelled. An SQLException's message is its SQLSTATE. NullPointerException and NumberFormatException messages are not modelled. When several constraints fail together, which SQLSTATE is reported is the model's choice, one order per statement: the UserAccount insert reports the key before the width; the Administrator insert and update report NOT NULL, then the key (insert only), then the width; the Province and City inserts report the width, then the key, then (City) the missing province.
- String lengths and `isBlank` count Dafny characters, that is Unicode scalar values, not UTF-16 code units.
- UserAccountStore.Find, UserAccountStore.Insert: keys are compared exactly, where Derby pads the shorter VARCHAR with blanks. So "admin " neither finds nor collides with a stored "admin" in the model, though Derby treats them as the same key.
- Login.Check: because of that exact comparison, "admin " is refused as an unknown name, where the program grants the stored "admin" row.
- PropertyTables.InsertProvince, PropertyTables.InsertCity, PropertyEntry.ProvinceStep: compare keys exactly, so "ON " is inserted beside a stored "ON". Derby's primary key refuses it with 23505, and `saveProperty` then shows "Input Error".
- UserAccountStore.Update: matches the row by exact name, where Derby's WHERE pads trailing blanks. So editing "bob" with the name changed to "bob " rewrites bob's row in the program and changes nothing in the model.
- PropertyTables.PropertyDatabase.CityExists: matches the (city, province) pair exactly. With "London" in "ON" stored, `cityExists("London ", "ON")` is true in the program and false in the model.
- PropertyEntry.CityStep: because of that exact match, "London " is inserted beside a stored "London" and the city list grows, where `saveProperty` skips the insert.
- PropertyTables.PropertyDatabase.CitiesInProvince: matches the province exactly, so "ON " lists no city in the model, where the program lists the cities of "ON".
- Database access failures are not modelled. So the `catch` branches those alone reach are left out: "ERROR: ", "ERROR-Login: ", "Find User Account: ", "Load Error" and "City Load Error". `ChangePassword` proves that its update cannot fail, so its "Change password: " branch is unreachable.
- JavaFX is not modelled: FXML loading, stages and `showAndWait`. A closed stage is a `closed` flag, and an alert is an entry in a list of shown messages.
- The "User account not found." branch of `handleUserSelection` is not modelled: `findOneRecord(String)` never returns null, so the branch cannot be reached.
- JavaFX's `onAction` firing on selection changes is not modelled: `handleUserSelection` runs only where the code calls it.
- The window-opening actions of the main window are not modelled: login, changePassword, manage*, showAbout and exit. Their wiring, `setIGlobalController`/`setDataStore`, is each controller's constructor. `refreshTable` of the parent window is not modelled.
- cancel and clearErrorMsg of the dialogs are not modelled; they only close the window or clear a label.
- The Administrator adapter's deleteOneRecord, getKeys and getAllRecords are not modelled; nothing in the modelled core calls them.
- The property types of the Add New Property form are not modelled: the PropertyType table is a list passed to the constructor.
- PropertyEntry.AddNewPropertyController.LoadCities: does not state that an editable combo box's editor text follows its selection, because that tie is inside JavaFX.
- AdministratorStore.AdministratorTableAdapter.FindByAccount: which referencing row wins when several reference the account is not stated, because it depends on the result-set order.
- UserAccountStore.UserAccountTableAdapter.GetAllKeys: the order of the names is not stated, because it depends on the result set.
