/** Who may use the editor: the e-mail allow-list applied after the OAuth
    login, and the guard that runs before every request (app.py). The two
    environment variables and the session's `admin_email` are parameters. */
module Access {
  import opened Wrappers
  import opened PyStr

  // ---------------------------------------------------------------------
  // The allow-list
  // ---------------------------------------------------------------------

  /** `ADMIN_GOOGLE_EMAILS` as a list: its non-blank comma-separated
      entries, stripped and lowercased, in order. */
  function AllowedEmails(allowedList: string): (r: seq<string>)
    ensures |r| == |CommaList(allowedList)|
    ensures forall i :: 0 <= i < |r| ==> r[i] != "" && IsLower(r[i])
  {
    var l := CommaList(allowedList);
    seq(|l|, i requires 0 <= i < |l| => Lower(l[i]))
  }

  /** `is_allowed_email`: an empty address is refused; a listed address
      (compared lowercased) is accepted; otherwise a configured domain
      decides. With neither variable set nobody is accepted. */
  function IsAllowedEmail(email: string, allowedList: string, allowedDomain: string): (allowed: bool)
    ensures allowed ==> email != ""
    ensures allowedList == "" && allowedDomain == "" ==> !allowed
  {
    if email == "" then false
    else if allowedList != "" && Lower(email) in AllowedEmails(allowedList) then true
    else if allowedDomain != "" then EndsWith(Lower(email), "@" + Lower(allowedDomain))
    else false
  }

  /** A piece of the raw list written in `ADMIN_GOOGLE_EMAILS` that names
      `email`, ignoring surrounding white space and ASCII case. */
  ghost predicate Listed(email: string, allowedList: string) {
    exists i :: 0 <= i < |Split(allowedList, ',')| &&
      Strip(Split(allowedList, ',')[i]) != "" && Lower(Strip(Split(allowedList, ',')[i])) == Lower(email)
  }

  /** The allow-list decision in terms of the raw variables: a non-empty
      address is accepted exactly when some comma-separated entry names it
      or it ends with "@" and the configured domain, both compared
      lowercased. */
  lemma AllowedEmailCases(email: string, allowedList: string, allowedDomain: string)
    ensures IsAllowedEmail(email, allowedList, allowedDomain) <==>
      email != "" &&
      (Listed(email, allowedList) ||
       (allowedDomain != "" && EndsWith(Lower(email), "@" + Lower(allowedDomain))))
  {
    var pieces := Split(allowedList, ',');
    var l := CommaList(allowedList);
    if Listed(email, allowedList) {
      var i :| 0 <= i < |pieces| && Strip(pieces[i]) != "" && Lower(Strip(pieces[i])) == Lower(email);
      CommaListHas(allowedList, i);
      var j :| 0 <= j < |l| && l[j] == Strip(pieces[i]);
      assert AllowedEmails(allowedList)[j] == Lower(email);
      assert allowedList != "";
    }
    if email != "" && allowedList != "" && Lower(email) in AllowedEmails(allowedList) {
      var j :| 0 <= j < |AllowedEmails(allowedList)| && AllowedEmails(allowedList)[j] == Lower(email);
      CommaListFrom(allowedList, l[j]);
      var i :| 0 <= i < |pieces| && Strip(pieces[i]) == l[j];
      assert Strip(pieces[i]) != "" && Lower(Strip(pieces[i])) == Lower(email);
    }
  }

  /** The decision ignores the case of the address. */
  lemma AllowedEmailIgnoresCase(email: string, allowedList: string, allowedDomain: string)
    ensures IsAllowedEmail(Lower(email), allowedList, allowedDomain) == IsAllowedEmail(email, allowedList, allowedDomain)
  {
    LowerIsLower(email);
  }

  // ---------------------------------------------------------------------
  // The request guard
  // ---------------------------------------------------------------------

  /** `_is_public_admin_endpoint`: the root, the static files and the three
      login routes; all are absolute, and none lies under "/admin". */
  function IsPublicAdminEndpoint(path: string): (pub: bool)
    ensures pub ==> |path| >= 1 && path[0] == '/'
    ensures pub ==> !("/admin" <= path)
  {
    var pub := path == "/" || "/static" <= path || path == "/login" || path == "/auth" || path == "/logout";
    assert "/admin" <= path ==> path[1] == 'a' && |path| >= 6;
    pub
  }

  /** `session.get("admin_email")` is truthy: a non-empty address. */
  function LoggedIn(adminEmail: Option<string>): (loggedIn: bool)
    ensures loggedIn <==> adminEmail.Some? && |adminEmail.value| > 0
  {
    adminEmail.Some? && adminEmail.value != ""
  }

  /** What `protect_admin_paths` does with a request. */
  datatype Gate = Pass | RedirectToLogin(next: string)

  /** `protect_admin_paths`: a path under "/admin" needs a logged-in
      session, and is otherwise sent to the login page with the path as
      its `next`; every other path passes. */
  function ProtectAdminPaths(path: string, adminEmail: Option<string>): (g: Gate)
    ensures g.Pass? <==> !("/admin" <= path) || LoggedIn(adminEmail)
    ensures g.RedirectToLogin? ==> g.next == path
  {
    if "/admin" <= path then
      if LoggedIn(adminEmail) then Pass
      else if IsPublicAdminEndpoint(path) then Pass
      else RedirectToLogin(path)
    else Pass
  }
}
