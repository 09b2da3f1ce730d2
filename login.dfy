/*
 * The login form (Login.py): a demo credential check, a counter of
 * failed attempts, and a lock that disables the login button once the
 * third failure is reached.  A login is submitted from the button or by
 * pressing Enter in either input field.  The message boxes are
 * outcomes; the 5-second re-enable timer is the separate call
 * `TimerFired`.
 */
module Login {
  import opened Text

  /** `max_attempts`. */
  const MaxAttempts := 3

  /** The demo accounts of `dummy_authenticate`. */
  const DemoUsers: map<string, string> :=
    map["admin" := "1234", "user" := "password", "test" := "test", "demo" := "demo"]

  /** `demo_users.get(username) == password`: a missing user gives None, which equals no password. */
  predicate Authenticate(username: string, password: string)
  {
    username in DemoUsers && DemoUsers[username] == password
  }

  /** The four accounts, listed: authentication accepts exactly these pairs. */
  lemma AuthenticateAccounts(username: string, password: string)
    ensures Authenticate(username, password) <==>
      (username == "admin" && password == "1234") ||
      (username == "user" && password == "password") ||
      (username == "test" && password == "test") ||
      (username == "demo" && password == "demo")
  {
    if Authenticate(username, password) {
      assert username in DemoUsers.Keys;
      assert DemoUsers.Keys == {"admin", "user", "test", "demo"};
    }
  }

  /**
   * What an attempt shows: the missing-input warning, the welcome, the
   * wrong-credentials warning with the attempts left, the lock notice,
   * or (for a click on the disabled button) nothing at all.
   */
  datatype Outcome = Warned | LoggedIn(user: string) | Failed(remaining: int) | Locked | Ignored

  /** The part of the form an attempt changes. */
  datatype State = State(attempts: nat, enabled: bool, errorShown: bool)

  /** The form as constructed, and as the timer and `reset_login_form` leave it. */
  const Initial := State(0, true, false)

  /** The inputs as `attempt_login` reads them: the stripped user name and the password verbatim. */
  predicate Blank(usernameText: string, password: string)
  {
    Strip(usernameText) == "" || password == ""
  }

  /**
   * `attempt_login` as written.  It does not look at whether the button
   * is enabled, because pressing Enter reaches it directly.
   */
  function Attempt(s: State, usernameText: string, password: string): (r: (State, Outcome))
    ensures r.1 == Warned <==> Blank(usernameText, password)
    ensures r.1.LoggedIn? <==> !Blank(usernameText, password) && Authenticate(Strip(usernameText), password)
    ensures r.1.LoggedIn? ==> r.1.user == Strip(usernameText)
    ensures r.1 == Warned || r.1.LoggedIn? ==> r.0 == s
    ensures r.1.Failed? || r.1 == Locked ==>
      r.0.attempts == s.attempts + 1 &&
      (r.1.Failed? <==> MaxAttempts - r.0.attempts > 0)
    ensures r.1.Failed? ==>
      r.1.remaining == MaxAttempts - r.0.attempts && r.0.enabled == s.enabled && r.0.errorShown
    ensures r.1 == Locked ==> !r.0.enabled && r.0.errorShown == s.errorShown
    ensures r.1 != Ignored
  {
    var username := Strip(usernameText);
    if username == "" || password == "" then (s, Warned)
    else if Authenticate(username, password) then (s, LoggedIn(username))
    else
      var attempts := s.attempts + 1;
      var remaining := MaxAttempts - attempts;
      if remaining > 0 then (s.(attempts := attempts, errorShown := true), Failed(remaining))
      else (s.(attempts := attempts, enabled := false), Locked)
  }

  /** A click: Qt delivers no click to a disabled button. */
  function Click(s: State, usernameText: string, password: string): (r: (State, Outcome))
    ensures r.1 == Ignored <==> !s.enabled
    ensures r.1 == Ignored ==> r.0 == s
    ensures r.1.LoggedIn? ==> s.enabled && Authenticate(Strip(usernameText), password)
    ensures r.1.Failed? || r.1 == Locked ==> r.0.attempts == s.attempts + 1
  {
    if s.enabled then Attempt(s, usernameText, password) else (s, Ignored)
  }

  /** A non-blank attempt with wrong credentials. */
  predicate Wrong(t: (string, string))
  {
    !Blank(t.0, t.1) && !Authenticate(Strip(t.0), t.1)
  }

  /** The states and outcomes of a series of attempts, each submitted by Enter (`guarded` false) or by a click. */
  function Replay(s: State, tries: seq<(string, string)>, guarded: bool): (r: (State, seq<Outcome>))
    ensures |r.1| == |tries|
    decreases |tries|
  {
    if |tries| == 0 then (s, [])
    else
      var step := if guarded then Click(s, tries[0].0, tries[0].1) else Attempt(s, tries[0].0, tries[0].1);
      var rest := Replay(step.0, tries[1..], guarded);
      (rest.0, [step.1] + rest.1)
  }

  /**
   * Consecutive wrong attempts from an enabled form: each adds one to the
   * counter, each before the third failure reports the attempts left, and
   * from the third on the form is locked.
   */
  lemma {:induction false} WrongAttemptsLock(s: State, tries: seq<(string, string)>)
    requires s.enabled && s.attempts < MaxAttempts
    requires forall i :: 0 <= i < |tries| ==> Wrong(tries[i])
    ensures Replay(s, tries, false).0.attempts == s.attempts + |tries|
    ensures Replay(s, tries, false).0.enabled <==> s.attempts + |tries| < MaxAttempts
    ensures forall i :: 0 <= i < |tries| ==>
      Replay(s, tries, false).1[i] ==
        (if s.attempts + i + 1 < MaxAttempts then Failed(MaxAttempts - (s.attempts + i + 1)) else Locked)
    decreases |tries|
  {
    if |tries| > 0 {
      var step := Attempt(s, tries[0].0, tries[0].1);
      assert Wrong(tries[0]);
      if step.0.enabled {
        WrongAttemptsLock(step.0, tries[1..]);
      } else {
        LockedAttemptsCount(step.0, tries[1..]);
      }
    }
  }

  /** Wrong attempts on a locked form, submitted by Enter: the counter keeps climbing and each reports the lock. */
  lemma {:induction false} LockedAttemptsCount(s: State, tries: seq<(string, string)>)
    requires !s.enabled && s.attempts >= MaxAttempts
    requires forall i :: 0 <= i < |tries| ==> Wrong(tries[i])
    ensures Replay(s, tries, false).0.attempts == s.attempts + |tries|
    ensures !Replay(s, tries, false).0.enabled
    ensures forall i :: 0 <= i < |tries| ==> Replay(s, tries, false).1[i] == Locked
    decreases |tries|
  {
    if |tries| > 0 {
      assert Wrong(tries[0]);
      LockedAttemptsCount(Attempt(s, tries[0].0, tries[0].1).0, tries[1..]);
    }
  }

  /** Three wrong attempts from a fresh form lock it, after warnings of 2 and 1 attempts left. */
  lemma ThreeWrongLock(tries: seq<(string, string)>)
    requires |tries| == 3 && forall i :: 0 <= i < 3 ==> Wrong(tries[i])
    ensures Replay(Initial, tries, false).1 == [Failed(2), Failed(1), Locked]
    ensures !Replay(Initial, tries, false).0.enabled
  {
    WrongAttemptsLock(Initial, tries);
  }

  /**
   * The lock does not hold against Enter: after three wrong attempts
   * have locked the form, correct demo credentials still log in.
   */
  lemma LockBypassedAsWritten(tries: seq<(string, string)>, usernameText: string, password: string)
    requires |tries| == 3 && forall i :: 0 <= i < 3 ==> Wrong(tries[i])
    requires !Blank(usernameText, password) && Authenticate(Strip(usernameText), password)
    ensures !Replay(Initial, tries, false).0.enabled
    ensures Attempt(Replay(Initial, tries, false).0, usernameText, password).1 == LoggedIn(Strip(usernameText))
  {
    ThreeWrongLock(tries);
  }

  /** Corrected: attempts on a locked form, if every one is guarded as a click is, change nothing and log no one in. */
  lemma {:induction false} GuardedLockHolds(s: State, tries: seq<(string, string)>)
    requires !s.enabled
    ensures Replay(s, tries, true).0 == s
    ensures forall i :: 0 <= i < |tries| ==> Replay(s, tries, true).1[i] == Ignored
    decreases |tries|
  {
    if |tries| > 0 {
      GuardedLockHolds(s, tries[1..]);
    }
  }

  /** The login form's widgets and counter. */
  class LoginForm {
    var usernameText: string
    var passwordText: string
    var remember: bool
    var errorShown: bool
    var attempts: nat
    var buttonEnabled: bool

    function Current(): State
      reads this
    {
      State(attempts, buttonEnabled, errorShown)
    }

    /** `__init__`: empty fields, no attempts, the button enabled. */
    constructor()
      ensures usernameText == "" && passwordText == "" && !remember
      ensures Current() == Initial
    {
      usernameText := "";
      passwordText := "";
      remember := false;
      errorShown := false;
      attempts := 0;
      buttonEnabled := true;
    }

    /** Typing into the fields; a change of either text clears the error styling. */
    method Type(username: string, password: string)
      modifies this
      ensures usernameText == username && passwordText == password
      ensures errorShown == (old(errorShown) && username == old(usernameText) && password == old(passwordText))
      ensures attempts == old(attempts) && buttonEnabled == old(buttonEnabled) && remember == old(remember)
    {
      if username != usernameText || password != passwordText {
        errorShown := false;
      }
      usernameText := username;
      passwordText := password;
    }

    /** `attempt_login`, reached by Enter in either field whatever the button's state. */
    method PressEnter() returns (o: Outcome)
      modifies this
      ensures (Current(), o) == Attempt(old(Current()), usernameText, passwordText)
      ensures usernameText == old(usernameText) && passwordText == old(passwordText) && remember == old(remember)
    {
      var username := Strip(usernameText);
      if username == "" || passwordText == "" {
        return Warned;
      }
      if Authenticate(username, passwordText) {
        return LoggedIn(username);
      }
      attempts := attempts + 1;
      var remaining := MaxAttempts - attempts;
      if remaining > 0 {
        errorShown := true;
        o := Failed(remaining);
      } else {
        buttonEnabled := false;
        o := Locked;
      }
    }

    /** A click on the login button, which reaches `attempt_login` only while the button is enabled. */
    method ClickLogin() returns (o: Outcome)
      modifies this
      ensures (Current(), o) == Click(old(Current()), usernameText, passwordText)
      ensures usernameText == old(usernameText) && passwordText == old(passwordText) && remember == old(remember)
    {
      if !buttonEnabled {
        return Ignored;
      }
      o := PressEnter();
    }

    /** The fields cleared and the error styling removed, as `enable_login_button` and `reset_login_form` both do. */
    method ClearForm()
      modifies this
      ensures Current() == Initial
      ensures usernameText == "" && passwordText == "" && !remember
    {
      buttonEnabled := true;
      attempts := 0;
      usernameText := "";
      passwordText := "";
      remember := false;
      errorShown := false;
    }

    /** `enable_login_button`, run by the timer 5 seconds after the lock. */
    method TimerFired()
      modifies this
      ensures Current() == Initial
      ensures usernameText == "" && passwordText == "" && !remember
    {
      ClearForm();
    }

    /** `reset_login_form`. */
    method ResetLoginForm()
      modifies this
      ensures Current() == Initial
      ensures usernameText == "" && passwordText == "" && !remember
    {
      ClearForm();
    }
  }
}
