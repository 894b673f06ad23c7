/** The login and registration views of app/auth.py. The password hash is
    an input (generation is salted) and the hash check is a parameter; the
    user table and the logged-in session are one value, `Accounts`, which a
    view maps to its successor. */
module Auth {
  import opened Wrappers
  import opened Distinct
  import opened Text

  /** A row of the user table (app/models.py): the username is unique. */
  datatype User = User(username: string, passwordHash: string)

  /** The user Flask-Login keeps logged in, and whether the session is
      remembered beyond the browser session. */
  datatype Session = Session(username: string, remember: bool)

  datatype Accounts = Accounts(users: seq<User>, current: Option<Session>)

  /** Where a view sends the browser: a redirect to the index or to the
      login page, or a rendered form. */
  datatype Page = IndexRedirect | LoginRedirect | LoginForm | RegisterForm

  /** A flashed message: its lines and its category. */
  datatype Flash = Flash(lines: seq<string>, category: string)

  datatype Reply = Reply(page: Page, flashes: seq<Flash>)

  /** What a view does: its reply and the accounts after it, or an
      exception that escapes the view (the session is rolled back). */
  datatype Outcome = Served(accounts: Accounts, reply: Reply) | Failed

  function Usernames(users: seq<User>): (r: seq<string>)
    ensures |r| == |users| && forall i :: 0 <= i < |users| ==> r[i] == users[i].username
  {
    if users == [] then [] else [users[0].username] + Usernames(users[1..])
  }

  /** The unique index on `user.username`. */
  predicate Valid(a: Accounts) {
    NoDuplicates(Usernames(a.users))
  }

  // ------------------------------------------------------------------- register

  const UsernameTooShort: string := "Username must be at least 4 characters long"
  const UsernameTooLong: string := "Username must be at most 15 characters long"
  const PasswordsDiffer: string := "Passwords do not match"
  const PasswordTooShort: string := "Password must be at least 5 characters long"
  const PasswordTooLong: string := "Password must be at atmost  15 characters long"
  const PasswordTooWeak: seq<string> := ["Password must contain:", "   - at least one capital letter", "   - at least a single number"]
  const RegistrationSuccessful: string := "Registration successful"
  const InvalidLogin: string := "Invalid username or password"

  predicate HasUpper(s: string) { exists i :: 0 <= i < |s| && IsUpper(s[i]) }
  predicate HasLower(s: string) { exists i :: 0 <= i < |s| && IsLower(s[i]) }
  predicate HasDigit(s: string) { exists i :: 0 <= i < |s| && IsDigit(s[i]) }

  /** The `if`/`elif` chain of register: the lines of the message flashed
      for the first rule the form breaks, or None when it breaks none. */
  function RegisterError(username: string, password1: string, password2: string): (r: Option<seq<string>>)
    ensures r.None? <==>
      && 4 <= |username| < 15
      && password1 == password2
      && 6 <= |password1| < 15
      && HasUpper(password1) && HasLower(password1) && HasDigit(password1)
  {
    if |username| < 4 then Some([UsernameTooShort])
    else if |username| >= 15 then Some([UsernameTooLong])
    else if password1 != password2 then Some([PasswordsDiffer])
    else if |password1| <= 5 then Some([PasswordTooShort])
    else if |password1| >= 15 then Some([PasswordTooLong])
    else if !(HasUpper(password1) && HasLower(password1) && HasDigit(password1)) then Some(PasswordTooWeak)
    else None
  }

  /** A rule of the form, and the message flashed when it is broken. */
  datatype Rule = Rule(holds: bool, message: seq<string>)

  /** The rules of the registration form, in the order they are checked. */
  function Rules(username: string, password1: string, password2: string): seq<Rule> {
    [ Rule(|username| >= 4, [UsernameTooShort]),
      Rule(|username| < 15, [UsernameTooLong]),
      Rule(password1 == password2, [PasswordsDiffer]),
      Rule(|password1| > 5, [PasswordTooShort]),
      Rule(|password1| < 15, [PasswordTooLong]),
      Rule(HasUpper(password1) && HasLower(password1) && HasDigit(password1), PasswordTooWeak) ]
  }

  /** The message of the first broken rule. */
  function FirstBroken(rules: seq<Rule>): (r: Option<seq<string>>)
    ensures r.None? <==> forall i :: 0 <= i < |rules| ==> rules[i].holds
    ensures r.Some? ==> exists i :: 0 <= i < |rules| && !rules[i].holds && r.value == rules[i].message
                                    && forall j :: 0 <= j < i ==> rules[j].holds
  {
    if rules == [] then None
    else if !rules[0].holds then Some(rules[0].message)
    else
      var r := FirstBroken(rules[1..]);
      assert forall i :: 1 <= i < |rules| ==> rules[i] == rules[1..][i - 1];
      if r.Some? then
        var i :| 0 <= i < |rules[1..]| && !rules[1..][i].holds && r.value == rules[1..][i].message
                 && forall j :: 0 <= j < i ==> rules[1..][j].holds;
        assert !rules[i + 1].holds && forall j :: 0 <= j < i + 1 ==> rules[j].holds;
        r
      else r
  }

  /** The chain flashes exactly the message of the first broken rule: only
      one message, and never one for a later rule while an earlier one is
      broken. */
  lemma RegisterErrorIsFirstBroken(username: string, password1: string, password2: string)
    ensures RegisterError(username, password1, password2) == FirstBroken(Rules(username, password1, password2))
  {
    var r := Rules(username, password1, password2);
    var r1, r2, r3, r4, r5 := r[1..], r[2..], r[3..], r[4..], r[5..];
    assert r1[1..] == r2 && r2[1..] == r3 && r3[1..] == r4 && r4[1..] == r5 && r5[1..] == [];
    assert FirstBroken(r5) == if !r[5].holds then Some(r[5].message) else None;
    assert FirstBroken(r4) == if !r[4].holds then Some(r[4].message) else FirstBroken(r5);
    assert FirstBroken(r3) == if !r[3].holds then Some(r[3].message) else FirstBroken(r4);
    assert FirstBroken(r2) == if !r[2].holds then Some(r[2].message) else FirstBroken(r3);
    assert FirstBroken(r1) == if !r[1].holds then Some(r[1].message) else FirstBroken(r2);
  }

  /** register. A logged-in user is sent to the index and a GET renders the
      form. A POST that breaks a rule flashes its message and renders the
      form again; otherwise the user is inserted with the hash of the
      password, logged in without "remember me", and sent to the index. A
      username already taken fails the commit on the unique index. */
  function Register(a: Accounts, isPost: bool, username: string, password1: string, password2: string,
                    passwordHash: string): (o: Outcome)
    ensures a.current.Some? ==> o == Served(a, Reply(IndexRedirect, []))
    ensures a.current.None? && !isPost ==> o == Served(a, Reply(RegisterForm, []))
    ensures a.current.None? && isPost && RegisterError(username, password1, password2).Some? ==>
      o == Served(a, Reply(RegisterForm, [Flash(RegisterError(username, password1, password2).value, "error")]))
    ensures a.current.None? && isPost && RegisterError(username, password1, password2).None? ==>
      if username in Usernames(a.users) then o == Failed
      else o == Served(Accounts(a.users + [User(username, passwordHash)], Some(Session(username, false))),
                       Reply(IndexRedirect, [Flash([RegistrationSuccessful], "success")]))
  {
    if a.current.Some? then Served(a, Reply(IndexRedirect, []))
    else if !isPost then Served(a, Reply(RegisterForm, []))
    else
      match RegisterError(username, password1, password2)
      case Some(lines) => Served(a, Reply(RegisterForm, [Flash(lines, "error")]))
      case None =>
        if username in Usernames(a.users) then Failed
        else Served(Accounts(a.users + [User(username, passwordHash)], Some(Session(username, false))),
                    Reply(IndexRedirect, [Flash([RegistrationSuccessful], "success")]))
  }

  /** Registration keeps usernames unique. */
  lemma RegisterKeepsValid(a: Accounts, isPost: bool, username: string, password1: string, password2: string,
                           passwordHash: string)
    requires Valid(a)
    ensures Register(a, isPost, username, password1, password2, passwordHash).Served? ==>
      Valid(Register(a, isPost, username, password1, password2, passwordHash).accounts)
  {
    var o := Register(a, isPost, username, password1, password2, passwordHash);
    if o.Served? && o.accounts != a {
      var users := a.users + [User(username, passwordHash)];
      forall i, j | 0 <= i < j < |users| ensures Usernames(users)[i] != Usernames(users)[j] {
        if j == |a.users| {
          assert Usernames(a.users)[i] == Usernames(users)[i];
        } else {
          assert Usernames(a.users)[i] == Usernames(users)[i] && Usernames(a.users)[j] == Usernames(users)[j];
        }
      }
    }
  }

  // ---------------------------------------------------------------------- login

  /** `request.form.get("remember") == "on"`. */
  function RememberFlag(value: Option<string>): (b: bool)
    ensures b <==> value == Some("on")
  {
    value.Some? && value.value == "on"
  }

  /** `User.query.filter_by(username=username).first()`: the first user with
      that username; a missing form field matches no user. */
  function FindUser(users: seq<User>, username: Option<string>): (r: Option<User>)
    ensures r.None? <==> username.None? || username.value !in Usernames(users)
    ensures r.Some? ==> r.value in users && r.value.username == username.value
  {
    if username.None? || users == [] then None
    else if users[0].username == username.value then Some(users[0])
    else
      assert Usernames(users) == [users[0].username] + Usernames(users[1..]);
      FindUser(users[1..], username)
  }

  /** login. A logged-in user is sent to the index and a GET renders the
      form. A POST looks the username up and checks the password against
      the stored hash with `check`: on success the user is logged in,
      remembered exactly when the form's checkbox says "on", and sent to
      the index; an unknown user or a wrong password flashes one message
      and redirects to the login page. */
  function Login(a: Accounts, isPost: bool, username: Option<string>, password: string, remember: Option<string>,
                 check: (string, string) -> bool): (o: Outcome)
    ensures o.Served?
    ensures a.current.Some? ==> o == Served(a, Reply(IndexRedirect, []))
    ensures a.current.None? && !isPost ==> o == Served(a, Reply(LoginForm, []))
    ensures a.current.None? && isPost ==> o.accounts.users == a.users
  {
    if a.current.Some? then Served(a, Reply(IndexRedirect, []))
    else if !isPost then Served(a, Reply(LoginForm, []))
    else
      match FindUser(a.users, username)
      case None => Served(a, Reply(LoginRedirect, [Flash([InvalidLogin], "error")]))
      case Some(user) =>
        if check(user.passwordHash, password) then
          Served(a.(current := Some(Session(user.username, RememberFlag(remember)))), Reply(IndexRedirect, []))
        else Served(a, Reply(LoginRedirect, [Flash([InvalidLogin], "error")]))
  }

  /** A POST to login logs in exactly when a user has that username and its
      stored hash accepts the password; the session is then that user's,
      remembered exactly when the checkbox value is "on". Otherwise nothing
      changes and the same message is flashed whichever check failed. */
  lemma LoginSpec(a: Accounts, username: Option<string>, password: string, remember: Option<string>,
                  check: (string, string) -> bool)
    requires Valid(a) && a.current.None?
    ensures var o := Login(a, true, username, password, remember, check);
      && (o.accounts.current.Some? <==>
            exists i :: 0 <= i < |a.users| && Some(a.users[i].username) == username && check(a.users[i].passwordHash, password))
      && (o.accounts.current.Some? ==>
            && o.accounts.current == Some(Session(username.value, remember == Some("on")))
            && o.reply == Reply(IndexRedirect, []))
      && (o.accounts.current.None? ==>
            o == Served(a, Reply(LoginRedirect, [Flash([InvalidLogin], "error")])))
  {
    var o := Login(a, true, username, password, remember, check);
    var u := FindUser(a.users, username);
    if u.Some? {
      var i :| 0 <= i < |a.users| && a.users[i] == u.value;
      forall k | 0 <= k < |a.users| && Some(a.users[k].username) == username ensures k == i {
        assert Usernames(a.users)[k] == Usernames(a.users)[i];
      }
      if check(u.value.passwordHash, password) {
        assert o.accounts.current == Some(Session(username.value, RememberFlag(remember)));
        assert Some(a.users[i].username) == username && check(a.users[i].passwordHash, password);
      } else {
        assert o == Served(a, Reply(LoginRedirect, [Flash([InvalidLogin], "error")]));
      }
    } else {
      assert o == Served(a, Reply(LoginRedirect, [Flash([InvalidLogin], "error")]));
      forall k | 0 <= k < |a.users| ensures Some(a.users[k].username) != username {
        if username.Some? {
          assert Usernames(a.users)[k] == a.users[k].username;
        }
      }
    }
  }

  /** Whoever registers can log in at once with the same password, provided
      the hash check accepts the password against the hash stored for it. */
  lemma RegisterThenLogin(a: Accounts, username: string, password: string, passwordHash: string,
                          remember: Option<string>, check: (string, string) -> bool)
    requires Valid(a) && a.current.None?
    requires Register(a, true, username, password, password, passwordHash).Served?
    requires RegisterError(username, password, password).None?
    requires check(passwordHash, password)
    ensures var b := Register(a, true, username, password, password, passwordHash).accounts;
      Login(b.(current := None), true, Some(username), password, remember, check).accounts.current ==
        Some(Session(username, remember == Some("on")))
  {
    var b := Register(a, true, username, password, password, passwordHash).accounts;
    RegisterKeepsValid(a, true, username, password, password, passwordHash);
    var users := a.users + [User(username, passwordHash)];
    assert b.users == users;
    assert users[|a.users|].username == username;
    assert Usernames(users)[|a.users|] == username;
    LoginSpec(b.(current := None), Some(username), password, remember, check);
    assert users[|a.users|].passwordHash == passwordHash;
  }
}
