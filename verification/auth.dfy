/** Authentication: one hard-coded administrator, a file of registered users
    compared in plain text, and the two session keys `logged_in` and `username`. */
module Auth {
  import opened Types
  import Text

  /** The login scan of the user file finds a record whose username and
      password both equal the submitted ones. */
  function Registered(users: seq<User>, username: string, password: string): (b: bool)
    ensures b <==> User(username, password) in users
  {
    if users == [] then false
    else users[0] == User(username, password) || Registered(users[1..], username, password)
  }

  /** The registration check: some record on file already has this username. */
  function Taken(users: seq<User>, username: string): (b: bool)
    ensures b <==> exists i :: 0 <= i < |users| && users[i].username == username
  {
    if users == [] then false
    else if users[0].username == username then true
    else
      var b := Taken(users[1..], username);
      assert b ==> exists i :: 0 <= i < |users| && users[i].username == username by {
        if b {
          var k :| 0 <= k < |users[1..]| && users[1..][k].username == username;
          assert users[k + 1].username == username;
        }
      }
      b
  }

  predicate UniqueUsernames(users: seq<User>) {
    forall i, j :: 0 <= i < j < |users| ==> users[i].username != users[j].username
  }

  /** `/login`: the administrator pair is accepted first; otherwise the exact
      pair must be on file. Success records the session keys and sends the
      visitor home; failure re-renders the form with an error and changes nothing. */
  function Login(s: State, verb: Verb, username: string, password: string): (r: Response)
    ensures verb.Get? ==> r == Response(s, Form)
    ensures verb.Post? ==>
              (r.outcome == Redirect(IndexPage)
               <==> (username == AdminUsername && password == AdminPassword) || User(username, password) in s.users)
    ensures r.outcome == Redirect(IndexPage) ==>
              r.next == s.(session := s.session.(loggedIn := true, username := Some(username)))
    ensures r.outcome != Redirect(IndexPage) ==> r.next == s
    ensures verb.Post? && r.outcome != Redirect(IndexPage) ==> r.outcome == InvalidCredentials
  {
    if verb.Get? then Response(s, Form)
    else if username == AdminUsername && password == AdminPassword then
      Response(s.(session := s.session.(loggedIn := true, username := Some(AdminUsername))), Redirect(IndexPage))
    else if Registered(s.users, username, password) then
      Response(s.(session := s.session.(loggedIn := true, username := Some(username))), Redirect(IndexPage))
    else Response(s, InvalidCredentials)
  }

  /** `/logout`: both session keys are removed; the cart stays. */
  function Logout(s: State): (r: Response)
    ensures r.outcome == Redirect(IndexPage)
    ensures !r.next.session.loggedIn && r.next.session.username.None?
    ensures r.next == s.(session := r.next.session) && r.next.session.cart == s.session.cart
  {
    Response(s.(session := s.session.(loggedIn := false, username := None)), Redirect(IndexPage))
  }

  /** Logging in and then out ends where logging out alone ends. */
  lemma LogoutUndoesLogin(s: State, verb: Verb, username: string, password: string)
    ensures Logout(Login(s, verb, username, password).next) == Logout(s)
  {
  }

  /** `/register`: the three fields are stripped; a blank field, differing
      passwords or a username on file turn the form away with nothing written;
      otherwise exactly one user record is appended. */
  function Register(s: State, verb: Verb, username: string, password: string, confirm: string): (r: Response)
    ensures verb.Get? ==> r == Response(s, Form)
    ensures r.outcome != Redirect(LoginPage) ==> r.next == s
    ensures verb.Post? ==>
              var u := Text.Strip(username); var p := Text.Strip(password); var c := Text.Strip(confirm);
              && ((u == [] || p == [] || c == []) ==> r.outcome == Rejected(EmptyField))
              && (u != [] && p != [] && c != [] && p != c ==> r.outcome == Rejected(PasswordMismatch))
              && ((u != [] && p != [] && p == c && exists i :: 0 <= i < |s.users| && s.users[i].username == u) ==>
                    r.outcome == Rejected(UsernameTaken))
              && (r.outcome == Redirect(LoginPage) <==>
                    u != [] && p != [] && p == c && forall i :: 0 <= i < |s.users| ==> s.users[i].username != u)
              && (r.outcome == Redirect(LoginPage) ==> r.next == s.(users := s.users + [User(u, p)]))
    ensures r.outcome.Rejected? || r.outcome == Redirect(LoginPage) || r.outcome == Form
  {
    if verb.Get? then Response(s, Form)
    else
      var u := Text.Strip(username);
      var p := Text.Strip(password);
      var c := Text.Strip(confirm);
      if u == [] || p == [] || c == [] then Response(s, Rejected(EmptyField))
      else if p != c then Response(s, Rejected(PasswordMismatch))
      else if Taken(s.users, u) then Response(s, Rejected(UsernameTaken))
      else Response(s.(users := s.users + [User(u, p)]), Redirect(LoginPage))
  }

  /** Registering a username a second time is refused and writes nothing. */
  lemma RegisterTwiceRejected(s: State, username: string, password: string, again: string, confirm: string)
    requires Register(s, Post, username, password, password).outcome == Redirect(LoginPage)
    ensures var t := Register(s, Post, username, password, password).next;
            && Register(t, Post, username, again, confirm).next == t
            && ((Text.Strip(again) != [] && Text.Strip(again) == Text.Strip(confirm)) ==>
                  Register(t, Post, username, again, confirm).outcome == Rejected(UsernameTaken))
  {
    var t := Register(s, Post, username, password, password).next;
    assert t.users[|s.users|].username == Text.Strip(username);
  }

  /** A freshly registered account can log in with its stripped credentials. */
  lemma RegisterThenLogin(s: State, username: string, password: string, confirm: string)
    requires Register(s, Post, username, password, confirm).outcome == Redirect(LoginPage)
    ensures var t := Register(s, Post, username, password, confirm).next;
            Login(t, Post, Text.Strip(username), Text.Strip(password)).next.session.loggedIn
  {
    var t := Register(s, Post, username, password, confirm).next;
    assert t.users[|s.users|] == User(Text.Strip(username), Text.Strip(password));
  }

  /** Registration never introduces a second account with the same name. */
  lemma RegisterKeepsUsernamesUnique(s: State, verb: Verb, username: string, password: string, confirm: string)
    requires UniqueUsernames(s.users)
    ensures UniqueUsernames(Register(s, verb, username, password, confirm).next.users)
  {
  }
}
