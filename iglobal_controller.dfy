/** The main window: its menu switches, the logged-in user's names, the
    alerts it shows, and the shared `encrypt`. */
module MainWindow {
  import opened Wrappers
  import opened JavaLang
  import opened Digests
  import opened AdministratorStore

  /** The switches `enableAdminControls` and `disableMenuItems` set: which
      menus are disabled, and whether the user menu is shown. */
  datatype Menus = Menus(
    agentPortalDisabled: bool,
    executivePortalDisabled: bool,
    adminPortalDisabled: bool,
    loginDisabled: bool,
    logoutDisabled: bool,
    fileMenuDisabled: bool,
    mainMenuDisabled: bool,
    closeDisabled: bool,
    userMenuVisible: bool)

  /** The menus while nobody is logged in. */
  const LoggedOut := Menus(true, true, true, false, true, false, false, false, false)

  /** The menus of a logged-in administrator. */
  const AdminSession := Menus(true, true, false, true, false, false, false, false, true)

  /** Exactly one of "Login" and "Logout" is enabled in each state; only an
      administrator session shows the user menu and the admin portal; the
      agent and executive portals are disabled in both; the file menu, the
      menu bar and "Close" stay enabled in both. */
  lemma MenuStates()
    ensures LoggedOut.loginDisabled != LoggedOut.logoutDisabled
    ensures AdminSession.loginDisabled != AdminSession.logoutDisabled
    ensures !LoggedOut.loginDisabled && !AdminSession.logoutDisabled
    ensures !LoggedOut.userMenuVisible && AdminSession.userMenuVisible
    ensures LoggedOut.adminPortalDisabled && !AdminSession.adminPortalDisabled
    ensures forall m :: m in {LoggedOut, AdminSession} ==>
      m.agentPortalDisabled && m.executivePortalDisabled
      && !m.fileMenuDisabled && !m.mainMenuDisabled && !m.closeDisabled
  {
  }

  class IGlobalController {
    var agentPortalDisabled: bool
    var executivePortalDisabled: bool
    var adminPortalDisabled: bool
    var loginDisabled: bool
    var logoutDisabled: bool
    var fileMenuDisabled: bool
    var mainMenuDisabled: bool
    var closeDisabled: bool
    var userMenuVisible: bool
    /** The text of the user menu, which holds the user's full name. */
    var userFullname: string
    var userAccountName: Option<string>
    /** The messages shown by `displayAlert`, oldest first. */
    var alerts: seq<string>
    const crypto: Crypto

    function CurrentMenus(): Menus
      reads this
    {
      Menus(agentPortalDisabled, executivePortalDisabled, adminPortalDisabled, loginDisabled,
            logoutDisabled, fileMenuDisabled, mainMenuDisabled, closeDisabled, userMenuVisible)
    }

    /** `initialize`: the logged-out menus, then `new
        AdministratorTableAdapter(false)` seeds the default administrator
        into the database `admins` stands for, hashing with the same
        platform digest as the main window. The user menu's text starts
        as `menuText`. */
    constructor (crypto: Crypto, admins: AdministratorTableAdapter, menuText: string, seed: int32)
      requires admins.Valid()
      requires admins.crypto == crypto
      modifies admins, admins.accounts
      ensures this.crypto == crypto && admins.crypto == crypto
      ensures CurrentMenus() == LoggedOut
      ensures userFullname == menuText && userAccountName == None && alerts == []
      ensures admins.Valid()
      ensures admins.Contents() == Seed(old(admins.Contents()), crypto, seed).0
    {
      this.crypto := crypto;
      userFullname := menuText;
      userAccountName := None;
      alerts := [];
      new;
      DisableMenuItems();
      admins.Open(false, seed);
    }

    method EnableAdminControls()
      modifies this
      ensures CurrentMenus() == AdminSession
      ensures userFullname == old(userFullname) && userAccountName == old(userAccountName)
      ensures alerts == old(alerts)
    {
      agentPortalDisabled := true;
      executivePortalDisabled := true;
      loginDisabled := true;
      fileMenuDisabled := false;
      logoutDisabled := false;
      mainMenuDisabled := false;
      closeDisabled := false;
      adminPortalDisabled := false;
      userMenuVisible := true;
    }

    method DisableMenuItems()
      modifies this
      ensures CurrentMenus() == LoggedOut
      ensures userFullname == old(userFullname) && userAccountName == old(userAccountName)
      ensures alerts == old(alerts)
    {
      agentPortalDisabled := true;
      executivePortalDisabled := true;
      adminPortalDisabled := true;
      logoutDisabled := true;
      userMenuVisible := false;
      fileMenuDisabled := false;
      mainMenuDisabled := false;
      closeDisabled := false;
      loginDisabled := false;
    }

    /** Logging out only resets the menus: the account name and the user
        menu's text are kept. */
    method Logout()
      modifies this
      ensures CurrentMenus() == LoggedOut
      ensures userFullname == old(userFullname) && userAccountName == old(userAccountName)
      ensures alerts == old(alerts)
    {
      DisableMenuItems();
    }

    method SetUserFullname(name: string)
      modifies this
      ensures userFullname == name
      ensures CurrentMenus() == old(CurrentMenus()) && userAccountName == old(userAccountName)
      ensures alerts == old(alerts)
    {
      userFullname := name;
    }

    method SetUserName(name: Option<string>)
      modifies this
      ensures userAccountName == name
      ensures CurrentMenus() == old(CurrentMenus()) && userFullname == old(userFullname)
      ensures alerts == old(alerts)
    {
      userAccountName := name;
    }

    method GetUserFullname() returns (name: string)
      ensures name == userFullname
    {
      name := userFullname;
    }

    method GetUserAccountName() returns (name: Option<string>)
      ensures name == userAccountName
    {
      name := userAccountName;
    }

    method DisplayAlert(msg: string)
      modifies this
      ensures alerts == old(alerts) + [msg]
      ensures CurrentMenus() == old(CurrentMenus())
      ensures userFullname == old(userFullname) && userAccountName == old(userAccountName)
    {
      alerts := alerts + [msg];
    }

    /** `encrypt`: the SHA-256 digest of password + salt as 64 lower-case
        hex digits, two per byte. */
    method Encrypt(password: string, salt: string) returns (r: string)
      ensures r == Encrypted(crypto, password, salt)
    {
      var saltedPassword := password + salt;
      var passBytes := crypto.getBytes(saltedPassword);
      var passHash := crypto.sha256(passBytes);
      var sb := "";
      for i := 0 to |passHash|
        invariant sb == HexText(passHash[..i])
      {
        HexTextSnoc(passHash[..i], passHash[i]);
        assert passHash[..i + 1] == passHash[..i] + [passHash[i]];
        sb := sb + HexPair(passHash[i]);
      }
      assert passHash[..|passHash|] == passHash;
      r := sb;
    }
  }
}
