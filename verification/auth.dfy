/** The account system: input validators, the 32-bit password hash, and
    the signup / login / logout / password-change / deletion state machine
    over a user database keyed by lower-cased email and a current-user
    slot. */
module Auth {
  import opened Common
  import opened Model

  // ---------------------------------------------------------------------
  // 32-bit arithmetic and the password hash

  const TwoTo31: int := 0x8000_0000
  const TwoTo32: int := 0x1_0000_0000

  predicate IsInt32(x: int)
  {
    -TwoTo31 <= x < TwoTo31
  }

  /** ECMAScript ToInt32: wrap an integer into the signed 32-bit range. */
  function ToInt32(x: int): (r: int)
    ensures IsInt32(r)
    ensures (r - x) % TwoTo32 == 0
  {
    (x + TwoTo31) % TwoTo32 - TwoTo31
  }

  /** ToInt32 only depends on the residue modulo 2^32. */
  lemma ToInt32Congruent(x: int, y: int, k: int)
    requires x == y + k * TwoTo32
    ensures ToInt32(x) == ToInt32(y)
  {
    var a := (x + TwoTo31) % TwoTo32;
    var b := (y + TwoTo31) % TwoTo32;
    var qa := (x + TwoTo31) / TwoTo32;
    var qb := (y + TwoTo31) / TwoTo32;
    assert x + TwoTo31 == qa * TwoTo32 + a;
    assert y + TwoTo31 == qb * TwoTo32 + b;
    assert (qa - qb - k) * TwoTo32 == b - a;
  }

  /** ToInt32 leaves 32-bit values alone. */
  lemma ToInt32OfInt32(x: int)
    requires IsInt32(x)
    ensures ToInt32(x) == x
  {
  }

  /** One step of the hash loop as written: `hash << 5` wraps to 32 bits,
      the subtraction and addition are exact, and `hash & hash` wraps the
      sum. */
  function HashStep(h: int, c: char): int
  {
    ToInt32(ToInt32(h * 32) - h + c as int)
  }

  /** The step is `h := ToInt32(31 * h + code)`. */
  lemma HashStepIsTimes31(h: int, c: char)
    ensures HashStep(h, c) == ToInt32(31 * h + c as int)
  {
    var w := ToInt32(h * 32);
    var k := (w - h * 32) / TwoTo32;
    assert w - h * 32 == k * TwoTo32;
    ToInt32Congruent(w - h + c as int, 31 * h + c as int, k);
  }

  /** The hash as a left fold from 0 of `h := ToInt32(31 * h + code)`. */
  function Hash(s: string): (h: int)
    ensures IsInt32(h)
  {
    if s == [] then 0 else ToInt32(31 * Hash(s[..|s| - 1]) + s[|s| - 1] as int)
  }

  /** The unbounded polynomial `Σ code[i] * 31^(n-1-i)`. */
  function Poly(s: string): int
  {
    if s == [] then 0 else 31 * Poly(s[..|s| - 1]) + s[|s| - 1] as int
  }

  /** The hash is the polynomial hash wrapped to 32 bits. */
  lemma {:induction false} HashIsWrappedPoly(s: string)
    ensures Hash(s) == ToInt32(Poly(s))
  {
    if s != [] {
      var p := s[..|s| - 1];
      var c := s[|s| - 1] as int;
      HashIsWrappedPoly(p);
      var k := (Hash(p) - Poly(p)) / TwoTo32;
      assert Hash(p) - Poly(p) == k * TwoTo32;
      assert 31 * Hash(p) + c == 31 * Poly(p) + c + (31 * k) * TwoTo32;
      ToInt32Congruent(31 * Hash(p) + c, 31 * Poly(p) + c, 31 * k);
    }
  }

  /** `hashPassword`: the loop over the characters as the source writes it. */
  method HashPassword(password: string) returns (h: int)
    ensures h == Hash(password)
    ensures IsInt32(h)
  {
    h := 0;
    var i := 0;
    while i < |password|
      invariant 0 <= i <= |password|
      invariant h == Hash(password[..i])
    {
      var c := password[i];
      assert password[..i + 1][..i] == password[..i];
      HashStepIsTimes31(h, c);
      h := ToInt32(ToInt32(h * 32) - h + c as int);
      i := i + 1;
    }
    assert password[..i] == password;
  }

  /** The empty password hashes to 0, and "a" to its character code. */
  lemma HashSmallCases()
    ensures Hash("") == 0
    ensures Hash("a") == 97
    ensures Hash("ab") == 97 * 31 + 98
  {
    assert "ab"[..1] == "a";
    assert "a"[..0] == "";
  }

  // ---------------------------------------------------------------------
  // Validators

  /** A character allowed by the class `[^\s@]`. */
  predicate Plain(c: char)
  {
    !IsWhitespace(c) && c != '@'
  }

  ghost predicate AllPlain(t: string)
  {
    forall k :: 0 <= k < |t| ==> Plain(t[k])
  }

  /** `s` splits as `[^\s@]+ @ [^\s@]+ \. [^\s@]+` with the `@` at `at` and
      the literal dot at `dot`. */
  ghost predicate RegexSplit(s: string, at: int, dot: int)
  {
    && 0 < at && at + 1 < dot < |s| - 1
    && s[at] == '@' && s[dot] == '.'
    && AllPlain(s[..at]) && AllPlain(s[at + 1..dot]) && AllPlain(s[dot + 1..])
  }

  /** What `/^[^\s@]+@[^\s@]+\.[^\s@]+$/` accepts. */
  ghost predicate EmailShape(s: string)
  {
    exists at, dot :: RegexSplit(s, at, dot)
  }

  /** `validateEmail`: no whitespace, exactly one `@` with something before
      it, and after it a `.` that is neither the first nor the last
      character. */
  predicate ValidateEmail(s: string)
  {
    && (forall k | 0 <= k < |s| :: !IsWhitespace(s[k]))
    && exists at | 0 < at < |s| ::
         && s[at] == '@'
         && (forall k | 0 <= k < |s| && k != at :: s[k] != '@')
         && exists dot | at + 1 < dot < |s| - 1 :: s[dot] == '.'
  }

  /** The validator accepts exactly the strings the regular expression
      matches. */
  lemma ValidateEmailMatchesRegex(s: string)
    ensures ValidateEmail(s) <==> EmailShape(s)
  {
    if ValidateEmail(s) {
      var at :| 0 < at < |s| && s[at] == '@'
        && (forall k | 0 <= k < |s| && k != at :: s[k] != '@')
        && exists dot | at + 1 < dot < |s| - 1 :: s[dot] == '.';
      var dot :| at + 1 < dot < |s| - 1 && s[dot] == '.';
      assert RegexSplit(s, at, dot);
    }
    if EmailShape(s) {
      var at, dot :| RegexSplit(s, at, dot);
      forall k | 0 <= k < |s| ensures !IsWhitespace(s[k]) && (k != at ==> s[k] != '@') {
        if k < at {
          assert s[..at][k] == s[k];
        } else if at < k < dot {
          assert s[at + 1..dot][k - at - 1] == s[k];
        } else if dot < k {
          assert s[dot + 1..][k - dot - 1] == s[k];
        }
      }
    }
  }

  const MinPasswordLength: nat := 6

  /** `validatePassword`. */
  predicate ValidatePassword(p: string)
  {
    |p| >= MinPasswordLength
  }

  /** Lower-casing changes no whitespace, `@` or `.`, so an email is valid
      exactly when its lower-cased form is. */
  lemma EmailValidIgnoresCase(s: string)
    ensures ValidateEmail(ToLower(s)) == ValidateEmail(s)
  {
    var t := ToLower(s);
    assert forall k :: 0 <= k < |s| ==> (IsWhitespace(t[k]) <==> IsWhitespace(s[k]));
    assert forall k :: 0 <= k < |s| ==> (t[k] == '@' <==> s[k] == '@');
    assert forall k :: 0 <= k < |s| ==> (t[k] == '.' <==> s[k] == '.');
  }

  // ---------------------------------------------------------------------
  // The user database

  datatype Settings = Settings(currency: string, notifications: bool)

  /** The per-user record the front end reads and writes back whole.
      `monthlyBudget` is 0 while unset. */
  datatype UserData = UserData(
    shoppingList: seq<LineItem>,
    purchaseHistory: seq<LineItem>,
    reminders: seq<Reminder>,
    familyCode: string,
    familyMembers: seq<string>,
    settings: Settings,
    monthlyBudget: int)

  /** A stored account; `password` is the hash of the password (the
      source keeps its decimal string, which is equal exactly when the
      numbers are). Times are milliseconds since the epoch. */
  datatype User = User(
    id: nat,
    name: string,
    email: string,
    password: int,
    createdAt: int,
    lastLogin: Option<int>)

  /** The logged-in user as the session keeps it. */
  datatype CurrentUser = CurrentUser(id: nat, email: string, name: string)

  datatype UserDb = UserDb(users: map<string, User>, userData: map<nat, UserData>, lastUserId: nat)

  datatype AuthState = AuthState(db: UserDb, current: Option<CurrentUser>)

  function InitialState(): AuthState
  {
    AuthState(UserDb(map[], map[], 0), None)
  }

  datatype AuthError =
    | NameRequired | InvalidEmail | WeakPassword | PasswordMismatch | EmailTaken
    | PasswordRequired | NoAccount | IncorrectPassword
    | NotLoggedIn | NewPasswordMismatch | NewPasswordWeak | CurrentPasswordIncorrect

  datatype Outcome = Ok | Failed(error: AuthError)

  /** The message each failure is reported with. */
  function Message(e: AuthError): string
  {
    match e
    case NameRequired => "Name is required"
    case InvalidEmail => "Please enter a valid email address"
    case WeakPassword => "Password must be at least 6 characters long"
    case PasswordMismatch => "Passwords do not match"
    case EmailTaken => "An account with this email already exists"
    case PasswordRequired => "Password is required"
    case NoAccount => "No account found with this email address"
    case IncorrectPassword => "Incorrect password"
    case NotLoggedIn => "Not logged in"
    case NewPasswordMismatch => "New passwords do not match"
    case NewPasswordWeak => "New password must be at least 6 characters long"
    case CurrentPasswordIncorrect => "Current password is incorrect"
  }

  /** The user data a new account starts with. */
  function NewUserData(name: string, familyCode: string): UserData
  {
    UserData([], [], [], familyCode, [name], Settings("INR", true), 0)
  }

  /** `signup`: validates in a fixed order, then creates the account under
      the next id and logs it in. `familyCode` is the freshly generated
      code and `now` the clock. */
  function Signup(st: AuthState, name: string, email: string, password: string, confirm: string,
                  familyCode: string, now: int): (r: (AuthState, Outcome))
    ensures r.1.Failed? ==> r.0 == st
    ensures r.1 == Failed(NameRequired) <==> Trim(name) == []
    ensures r.1 == Failed(InvalidEmail) <==> Trim(name) != [] && !ValidateEmail(email)
    ensures r.1 == Failed(WeakPassword) <==>
      Trim(name) != [] && ValidateEmail(email) && !ValidatePassword(password)
    ensures r.1 == Failed(PasswordMismatch) <==>
      Trim(name) != [] && ValidateEmail(email) && ValidatePassword(password) && password != confirm
    ensures r.1 == Failed(EmailTaken) <==>
      Trim(name) != [] && ValidateEmail(email) && ValidatePassword(password) && password == confirm
      && ToLower(email) in st.db.users
    ensures r.1 == Ok <==>
      Trim(name) != [] && ValidateEmail(email) && ValidatePassword(password) && password == confirm
      && ToLower(email) !in st.db.users
    ensures r.1 == Ok ==>
      var id := st.db.lastUserId + 1;
      var key := ToLower(email);
      && key !in st.db.users
      && r.0.db.lastUserId == id
      && r.0.db.users == st.db.users[key := User(id, Trim(name), key, Hash(password), now, None)]
      && r.0.db.userData == st.db.userData[id := NewUserData(Trim(name), familyCode)]
      && r.0.current == Some(CurrentUser(id, key, Trim(name)))
  {
    if Trim(name) == [] then (st, Failed(NameRequired))
    else if !ValidateEmail(email) then (st, Failed(InvalidEmail))
    else if !ValidatePassword(password) then (st, Failed(WeakPassword))
    else if password != confirm then (st, Failed(PasswordMismatch))
    else if ToLower(email) in st.db.users then (st, Failed(EmailTaken))
    else
      var id := st.db.lastUserId + 1;
      var key := ToLower(email);
      var user := User(id, Trim(name), key, Hash(password), now, None);
      var db := UserDb(st.db.users[key := user],
                       st.db.userData[id := NewUserData(Trim(name), familyCode)], id);
      (AuthState(db, Some(CurrentUser(id, key, Trim(name)))), Ok)
  }

  /** `login`: checks the email shape, a non-empty password, the account
      and the password hash, then stamps the login time and sets the
      current user. */
  function Login(st: AuthState, email: string, password: string, now: int): (r: (AuthState, Outcome))
    ensures r.1.Failed? ==> r.0 == st
    ensures r.1 == Ok <==>
      ValidateEmail(email) && password != [] && ToLower(email) in st.db.users
      && st.db.users[ToLower(email)].password == Hash(password)
    ensures r.1 == Failed(InvalidEmail) <==> !ValidateEmail(email)
    ensures r.1 == Failed(PasswordRequired) <==> ValidateEmail(email) && password == []
    ensures r.1 == Failed(NoAccount) <==>
      ValidateEmail(email) && password != [] && ToLower(email) !in st.db.users
    ensures r.1 == Failed(IncorrectPassword) <==>
      ValidateEmail(email) && password != [] && ToLower(email) in st.db.users
      && st.db.users[ToLower(email)].password != Hash(password)
    ensures r.1 == Ok ==>
      var u := st.db.users[ToLower(email)];
      && r.0.db == st.db.(users := st.db.users[ToLower(email) := u.(lastLogin := Some(now))])
      && r.0.current == Some(CurrentUser(u.id, u.email, u.name))
  {
    if !ValidateEmail(email) then (st, Failed(InvalidEmail))
    else if password == [] then (st, Failed(PasswordRequired))
    else if ToLower(email) !in st.db.users then (st, Failed(NoAccount))
    else
      var u := st.db.users[ToLower(email)];
      if u.password != Hash(password) then (st, Failed(IncorrectPassword))
      else
        var db := st.db.(users := st.db.users[ToLower(email) := u.(lastLogin := Some(now))]);
        (AuthState(db, Some(CurrentUser(u.id, u.email, u.name))), Ok)
  }

  /** `logout`: always succeeds and clears the session. */
  function Logout(st: AuthState): (r: (AuthState, Outcome))
    ensures r.0.current.None? && r.0.db == st.db && r.1 == Ok
  {
    (st.(current := None), Ok)
  }

  /** `getUserData`: the current user's data, if logged in and present. */
  function GetUserData(st: AuthState): (r: Option<UserData>)
    ensures r.Some? <==> st.current.Some? && st.current.value.id in st.db.userData
    ensures r.Some? ==> r.value == st.db.userData[st.current.value.id]
  {
    match st.current
    case None => None
    case Some(cu) => if cu.id in st.db.userData then Some(st.db.userData[cu.id]) else None
  }

  /** `saveUserData`: replaces the current user's data; refused when logged
      out. */
  function SaveUserData(st: AuthState, data: UserData): (r: (AuthState, bool))
    ensures r.1 <==> st.current.Some?
    ensures !r.1 ==> r.0 == st
    ensures r.1 ==> r.0 == st.(db := st.db.(userData := st.db.userData[st.current.value.id := data]))
  {
    match st.current
    case None => (st, false)
    case Some(cu) => (st.(db := st.db.(userData := st.db.userData[cu.id := data])), true)
  }

  /** `deleteAccount`: needs a session and the right password; removes the
      account and its data and logs out. */
  function DeleteAccount(st: AuthState, password: string): (r: (AuthState, Outcome))
    ensures r.1.Failed? ==> r.0 == st
    ensures r.1 == Failed(NotLoggedIn) <==> st.current.None?
    ensures r.1 == Ok <==>
      st.current.Some? && st.current.value.email in st.db.users
      && st.db.users[st.current.value.email].password == Hash(password)
    ensures r.1 == Failed(IncorrectPassword) <==>
      st.current.Some? && (st.current.value.email !in st.db.users
        || st.db.users[st.current.value.email].password != Hash(password))
    ensures r.1 == Ok ==>
      && r.0.current.None?
      && r.0.db.users == st.db.users - {st.current.value.email}
      && r.0.db.userData == st.db.userData - {st.current.value.id}
      && r.0.db.lastUserId == st.db.lastUserId
  {
    match st.current
    case None => (st, Failed(NotLoggedIn))
    case Some(cu) =>
      if cu.email !in st.db.users || st.db.users[cu.email].password != Hash(password) then
        (st, Failed(IncorrectPassword))
      else
        var db := UserDb(st.db.users - {cu.email}, st.db.userData - {cu.id}, st.db.lastUserId);
        (AuthState(db, None), Ok)
  }

  /** `changePassword`: checks the session, the confirmation, the new
      password's length and the current password, in that order; success
      replaces only the stored hash. */
  function ChangePassword(st: AuthState, currentPassword: string, newPassword: string, confirm: string)
    : (r: (AuthState, Outcome))
    ensures r.1.Failed? ==> r.0 == st
    ensures r.1 == Failed(NotLoggedIn) <==> st.current.None?
    ensures r.1 == Failed(NewPasswordMismatch) <==> st.current.Some? && newPassword != confirm
    ensures r.1 == Failed(NewPasswordWeak) <==>
      st.current.Some? && newPassword == confirm && !ValidatePassword(newPassword)
    ensures r.1 == Ok <==>
      && st.current.Some? && newPassword == confirm && ValidatePassword(newPassword)
      && st.current.value.email in st.db.users
      && st.db.users[st.current.value.email].password == Hash(currentPassword)
    ensures r.1 == Failed(CurrentPasswordIncorrect) <==>
      && st.current.Some? && newPassword == confirm && ValidatePassword(newPassword)
      && (st.current.value.email !in st.db.users
          || st.db.users[st.current.value.email].password != Hash(currentPassword))
    ensures r.1 == Ok ==>
      var e := st.current.value.email;
      && r.0.current == st.current
      && r.0.db == st.db.(users := st.db.users[e := st.db.users[e].(password := Hash(newPassword))])
  {
    match st.current
    case None => (st, Failed(NotLoggedIn))
    case Some(cu) =>
      if newPassword != confirm then (st, Failed(NewPasswordMismatch))
      else if !ValidatePassword(newPassword) then (st, Failed(NewPasswordWeak))
      else if cu.email !in st.db.users || st.db.users[cu.email].password != Hash(currentPassword) then
        (st, Failed(CurrentPasswordIncorrect))
      else
        var u := st.db.users[cu.email];
        (st.(db := st.db.(users := st.db.users[cu.email := u.(password := Hash(newPassword))])), Ok)
  }

  // ---------------------------------------------------------------------
  // The invariant and the properties the operations keep

  /** Every account sits under its own lower-cased email with a distinct id
      no greater than the counter, and the session, if any, names an
      account under the same id and email. */
  ghost predicate WellFormed(st: AuthState)
  {
    && (forall e :: e in st.db.users ==>
          st.db.users[e].email == e && ToLower(e) == e && 1 <= st.db.users[e].id <= st.db.lastUserId)
    && (forall e, f :: e in st.db.users && f in st.db.users && e != f ==>
          st.db.users[e].id != st.db.users[f].id)
    && (st.current.Some? ==>
          st.current.value.email in st.db.users
          && st.db.users[st.current.value.email].id == st.current.value.id)
  }

  lemma InitialWellFormed()
    ensures WellFormed(InitialState())
  {
  }

  lemma ToLowerIdempotent(s: string)
    ensures ToLower(ToLower(s)) == ToLower(s)
  {
  }

  lemma SignupKeepsWellFormed(st: AuthState, name: string, email: string, password: string,
                              confirm: string, familyCode: string, now: int)
    requires WellFormed(st)
    ensures WellFormed(Signup(st, name, email, password, confirm, familyCode, now).0)
  {
    ToLowerIdempotent(email);
  }

  lemma LoginKeepsWellFormed(st: AuthState, email: string, password: string, now: int)
    requires WellFormed(st)
    ensures WellFormed(Login(st, email, password, now).0)
  {
  }

  lemma SessionOpsKeepWellFormed(st: AuthState, password: string, newPassword: string,
                                 confirm: string, data: UserData)
    requires WellFormed(st)
    ensures WellFormed(Logout(st).0)
    ensures WellFormed(DeleteAccount(st, password).0)
    ensures WellFormed(ChangePassword(st, password, newPassword, confirm).0)
    ensures WellFormed(SaveUserData(st, data).0)
  {
    LogoutKeepsWellFormed(st);
    DeleteKeepsWellFormed(st, password);
    ChangeKeepsWellFormed(st, password, newPassword, confirm);
    SaveKeepsWellFormed(st, data);
  }

  lemma LogoutKeepsWellFormed(st: AuthState)
    requires WellFormed(st)
    ensures WellFormed(Logout(st).0)
  {
  }

  lemma DeleteKeepsWellFormed(st: AuthState, password: string)
    requires WellFormed(st)
    ensures WellFormed(DeleteAccount(st, password).0)
  {
  }

  lemma ChangeKeepsWellFormed(st: AuthState, password: string, newPassword: string, confirm: string)
    requires WellFormed(st)
    ensures WellFormed(ChangePassword(st, password, newPassword, confirm).0)
  {
  }

  lemma SaveKeepsWellFormed(st: AuthState, data: UserData)
    requires WellFormed(st)
    ensures WellFormed(SaveUserData(st, data).0)
  {
  }

  /** Logging in does not depend on the case of the email. */
  lemma LoginIgnoresCase(st: AuthState, e1: string, e2: string, password: string, now: int)
    requires ToLower(e1) == ToLower(e2)
    ensures Login(st, e1, password, now) == Login(st, e2, password, now)
  {
    EmailValidIgnoresCase(e1);
    EmailValidIgnoresCase(e2);
  }

  /** After a successful signup, logging in with the same email and
      password succeeds, as the same user. */
  lemma SignupThenLogin(st: AuthState, name: string, email: string, password: string,
                        familyCode: string, now: int, later: int)
    requires Signup(st, name, email, password, password, familyCode, now).1 == Ok
    ensures var st' := Signup(st, name, email, password, password, familyCode, now).0;
      var r := Login(st', email, password, later);
      r.1 == Ok && r.0.current == st'.current
  {
  }

  /** Signing up twice with the same email is refused the second time. */
  lemma SignupTwiceRefused(st: AuthState, name: string, email: string, password: string,
                           familyCode: string, now: int, name2: string, password2: string)
    requires Signup(st, name, email, password, password, familyCode, now).1 == Ok
    requires Trim(name2) != [] && ValidatePassword(password2)
    ensures var st' := Signup(st, name, email, password, password, familyCode, now).0;
      Signup(st', name2, email, password2, password2, familyCode, now).1 == Failed(EmailTaken)
  {
  }

  /** After a password change the new password logs in, and the old one no
      longer does unless both hash alike. */
  lemma ChangePasswordThenLogin(st: AuthState, before: string, after: string, now: int)
    requires WellFormed(st)
    requires ChangePassword(st, before, after, after).1 == Ok
    ensures var st' := ChangePassword(st, before, after, after).0;
      var e := st.current.value.email;
      && Login(st', e, after, now).1 == (if ValidateEmail(e) then Ok else Failed(InvalidEmail))
      && (Hash(before) != Hash(after) && ValidateEmail(e) && before != [] ==>
            Login(st', e, before, now).1 == Failed(IncorrectPassword))
  {
  }

  /** A deleted account can no longer log in. */
  lemma DeleteThenLogin(st: AuthState, password: string, attempt: string, now: int)
    requires WellFormed(st)
    requires DeleteAccount(st, password).1 == Ok
    requires ValidateEmail(st.current.value.email) && attempt != []
    ensures Login(DeleteAccount(st, password).0, st.current.value.email, attempt, now).1 == Failed(NoAccount)
  {
  }

  /** A new account's id exceeds every id already in the database. */
  lemma SignupIdFresh(st: AuthState, name: string, email: string, password: string,
                      confirm: string, familyCode: string, now: int)
    requires WellFormed(st)
    requires Signup(st, name, email, password, confirm, familyCode, now).1 == Ok
    ensures forall e :: e in st.db.users ==>
      st.db.users[e].id < Signup(st, name, email, password, confirm, familyCode, now).0.db.lastUserId
  {
  }
}
