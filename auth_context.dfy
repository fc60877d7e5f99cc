/** The web client's session (contexts/AuthContext.tsx): the restored
    session, the email check and name derivation of `login`, `logout`, and
    the derived `isAdmin` and `isAuthenticated` flags. */
module AuthContext {
  import opened Common
  import opened ClientModel
  import opened DisplayName
  import AuthRoutes
  import AdminPanel

  const CollegeDomain: string := "@college.edu"
  const GmailDomain: string := "@gmail.com"
  const AdminEmail: string := "himynameisdivyansh@gmail.com"

  /** The login's email check: a case-sensitive suffix test. */
  predicate LoginAccepts(email: string) {
    EndsWith(email, CollegeDomain) || EndsWith(email, GmailDomain)
  }

  /** `isAdmin` for a given user: the emails agree ignoring ASCII case. */
  predicate AdminUser(user: Option<ClientUser>) {
    user.Some? && ToLower(user.value.email) == ToLower(AdminEmail)
  }

  /** The server's login accepts only "@learner.manipal.edu" addresses,
      none of which passes the client's check. */
  lemma ClientRefusesServerAddresses(s: string)
    requires AuthRoutes.IsManipalEmail(s)
    ensures !LoginAccepts(s)
  {
    var n := |s|;
    assert s[n - 20..] == AuthRoutes.ManipalDomain;
    assert s[n - 12] == AuthRoutes.ManipalDomain[8] == '.';
    assert s[n - 10] == AuthRoutes.ManipalDomain[10] == 'a';
  }

  /** The provider's state: the signed-in user, the copy saved in local
      storage under "cabshare_user", and the loading flag. */
  class AuthState {
    var user: Option<ClientUser>
    var saved: Option<ClientUser>
    var isLoading: bool

    /** Mounting with whatever local storage holds. */
    constructor (stored: Option<ClientUser>)
      ensures user == None && saved == stored && isLoading
    {
      user := None;
      saved := stored;
      isLoading := true;
    }

    /** The mount effect: restore the saved session, then stop loading. */
    method Restore()
      modifies this
      ensures saved == old(saved) && !isLoading
      ensures user == (if old(saved).Some? then old(saved) else old(user))
    {
      if saved.Some? {
        user := saved;
      }
      isLoading := false;
    }

    /** `login(email)`; `newId` stands for `crypto.randomUUID()`. */
    method Login(email: string, newId: Id) returns (ok: bool)
      modifies this
      ensures ok <==> LoginAccepts(email)
      ensures !ok ==> user == old(user) && saved == old(saved)
      ensures ok ==> user == Some(ClientUser(newId, email, LoginName(email), None)) && saved == user
      ensures isLoading == old(isLoading)
    {
      if !EndsWith(email, CollegeDomain) && !EndsWith(email, GmailDomain) {
        return false;
      }
      var u := ClientUser(newId, email, LoginName(email), None);
      user := Some(u);
      saved := Some(u);
      return true;
    }

    /** `logout()` clears the user and the saved copy. */
    method Logout()
      modifies this
      ensures user == None && saved == None && isLoading == old(isLoading)
    {
      user := None;
      saved := None;
    }

    predicate IsAuthenticated()
      reads this
    {
      user.Some?
    }

    predicate IsAdmin()
      reads this
    {
      AdminUser(user)
    }
  }

  /** Signing in as the admin address in any letter case makes `isAdmin`
      true, so the Admin page renders the panel; but the user `login`
      builds carries no role, so the panel's own `role !== 'admin'` test
      still shows "Access denied" to every user signed in this way. */
  lemma AdminAfterLogin(email: string, newId: Id)
    ensures var u := Some(ClientUser(newId, email, LoginName(email), None));
            (AdminUser(u) <==> ToLower(email) == ToLower(AdminEmail)) && AdminPanel.AccessDenied(u)
  {
  }

  /** The admin address itself passes the login's email check. */
  lemma AdminCanSignIn()
    ensures LoginAccepts(AdminEmail)
  {
    assert AdminEmail == "himynameisdivyansh" + GmailDomain;
  }
}
