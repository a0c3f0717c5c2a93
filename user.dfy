/** The user table of task1 (user.h, user.c): a fixed-capacity array of
    users, each with a login, a PIN, a request limit and a request counter,
    and the operations that register, authenticate, limit and count.

    The table `user_manager_t` becomes class UserManager over an array of
    `MAX_USERS` entries; a pointer to an entry, as `user_manager_auth`
    returns and `user_increment_requests` takes, becomes an index into that
    array, with NULL as None. */
module Users {
  import opened Wrappers
  import opened Utils

  const MaxLoginLength: nat := 6
  const MaxUsers: nat := 100
  const MaxPin: nat := 100000

  /** `uint32_t`. */
  const Uint32Modulus: nat := 0x1_0000_0000
  type uint32 = x: int | 0 <= x < 0x1_0000_0000

  /** `user_t`. */
  datatype User = User(login: CString, pin: uint32, requestLimit: uint32, currentRequests: uint32)

  // ---------------------------------------------------------------------
  // Validation

  /** `isalnum` in the C locale. */
  predicate IsAlnum(c: char) {
    ('a' <= c <= 'z') || ('A' <= c <= 'Z') || ('0' <= c <= '9')
  }

  /** A login is at most six characters, all letters or digits; the empty
      login qualifies. */
  predicate ValidLogin(login: CString) {
    |login| <= MaxLoginLength && forall k :: 0 <= k < |login| ==> IsAlnum(login[k])
  }

  /** `is_valid_pin`: a PIN is at most 100000. */
  predicate ValidPin(pin: uint32) {
    pin <= MaxPin
  }

  /** `is_valid_login`: a missing login is refused, and so is one longer than
      six characters; otherwise the characters are checked one by one. */
  method IsValidLogin(login: Option<CString>) returns (b: bool)
    ensures b <==> login.Some? && ValidLogin(login.value)
  {
    if login.None? || |login.value| > MaxLoginLength {
      return false;
    }
    var s := login.value;
    var i := 0;
    while i < |s|
      invariant 0 <= i <= |s|
      invariant forall k :: 0 <= k < i ==> IsAlnum(s[k])
    {
      if !IsAlnum(s[i]) {
        return false;
      }
      i := i + 1;
    }
    return true;
  }

  /** A non-empty valid login is read back by the command-line tokenizer as
      one token, itself: a login typed as an argument arrives intact. */
  lemma ValidLoginIsOneToken(login: CString)
    requires ValidLogin(login) && login != ""
    ensures Tokens(login) == [login]
  {
    assert forall k :: 0 <= k < |login| ==> !IsSpace(login[k]) by {
      forall k | 0 <= k < |login|
        ensures !IsSpace(login[k])
      {
        assert IsAlnum(login[k]);
      }
    }
    WordTokens(login);
  }

  /** Logins longer than six characters, or holding anything but letters and
      digits, are invalid; the empty login and six letters or digits are
      valid. */
  lemma ValidLoginBoundary(login: CString, c: char)
    requires |login| == MaxLoginLength && ValidLogin(login)
    requires c != '\0'
    ensures ValidLogin("")
    ensures !ValidLogin(login + [c])
    ensures !IsAlnum(c) ==> !ValidLogin([c])
  {
    assert [c][0] == c;
  }

  /** The PIN bound is inclusive: 0 and 100000 are valid PINs, and every
      larger 32-bit value is refused. */
  lemma ValidPinBoundary(pin: uint32)
    ensures ValidPin(0) && ValidPin(100000)
    ensures pin > 100000 ==> !ValidPin(pin)
  {
  }

  // ---------------------------------------------------------------------
  // The table as a value

  /** No two entries share a login. */
  predicate LoginsDistinct(us: seq<User>) {
    forall i, j :: 0 <= i < j < |us| ==> us[i].login != us[j].login
  }

  /** Some entry has the login `login`. */
  predicate Registered(us: seq<User>, login: CString) {
    exists k :: 0 <= k < |us| && us[k].login == login
  }

  /** The first entry whose login and PIN both match, searching from the
      start of the table. */
  function FindCredentials(us: seq<User>, login: CString, pin: uint32): (r: Option<nat>)
    ensures r.Some? ==> r.value < |us| && us[r.value].login == login && us[r.value].pin == pin
    ensures r.Some? ==> forall k :: 0 <= k < r.value ==> !(us[k].login == login && us[k].pin == pin)
    ensures r.None? ==> forall k :: 0 <= k < |us| ==> !(us[k].login == login && us[k].pin == pin)
    decreases |us|
  {
    if us == [] then None
    else if us[0].login == login && us[0].pin == pin then Some(0)
    else match FindCredentials(us[1..], login, pin)
      case None => None
      case Some(i) => Some(i + 1)
  }

  /** The first entry whose login matches, searching from the start. */
  function FindLogin(us: seq<User>, login: CString): (r: Option<nat>)
    ensures r.Some? <==> Registered(us, login)
    ensures r.Some? ==> r.value < |us| && us[r.value].login == login
    ensures r.Some? ==> forall k :: 0 <= k < r.value ==> us[k].login != login
    decreases |us|
  {
    if us == [] then None
    else if us[0].login == login then Some(0)
    else match FindLogin(us[1..], login)
      case None => None
      case Some(i) => Some(i + 1)
  }

  /** With distinct logins, authentication succeeds exactly at the entry of
      the login, and only when that entry's PIN is the one given: a wrong
      PIN is never accepted for another entry. */
  lemma CredentialsAreLoginThenPin(us: seq<User>, login: CString, pin: uint32)
    requires LoginsDistinct(us)
    ensures FindCredentials(us, login, pin)
            == match FindLogin(us, login)
               case None => None
               case Some(i) => if us[i].pin == pin then Some(i) else None
  {
    var r := FindCredentials(us, login, pin);
    if r.Some? {
      var i := FindLogin(us, login).value;
      assert us[i].login == us[r.value].login;
    }
  }

  /** The entry a successful registration appends is found by
      authentication with the same login and PIN. */
  lemma RegisteredUserAuthenticates(us: seq<User>, login: CString, pin: uint32)
    requires !Registered(us, login)
    ensures FindCredentials(us + [User(login, pin, 0, 0)], login, pin) == Some(|us|)
  {
    var s := us + [User(login, pin, 0, 0)];
    var r := FindCredentials(s, login, pin);
    assert s[|us|].login == login && s[|us|].pin == pin;
    assert forall k :: 0 <= k < |us| ==> s[k] == us[k];
  }

  // ---------------------------------------------------------------------
  // Request limits

  /** `user_can_make_request`: no user cannot; a limit of 0 means no limit;
      otherwise the counter must be below the limit. */
  function CanMakeRequest(user: Option<User>): (b: bool)
    ensures b ==> user.Some?
    ensures user.Some? && user.value.requestLimit == 0 ==> b
    ensures user.Some? && user.value.requestLimit != 0 ==>
              (b <==> user.value.currentRequests < user.value.requestLimit)
  {
    user.Some? && (user.value.requestLimit == 0 || user.value.currentRequests < user.value.requestLimit)
  }

  /** `user_increment_requests` on one entry: nothing happens without a
      limit; otherwise the 32-bit counter goes up by one, wrapping to 0
      past its largest value. */
  function AfterRequest(u: User): (r: User)
    ensures r.login == u.login && r.pin == u.pin && r.requestLimit == u.requestLimit
    ensures u.requestLimit == 0 ==> r == u
    ensures u.requestLimit != 0 && u.currentRequests < Uint32Modulus - 1 ==>
              r.currentRequests == u.currentRequests + 1
    ensures u.requestLimit != 0 && u.currentRequests == Uint32Modulus - 1 ==>
              r.currentRequests == 0
  {
    if u.requestLimit == 0 then u
    else u.(currentRequests := (u.currentRequests + 1) % Uint32Modulus)
  }

  /** One request that checks the limit first and counts only when
      allowed; the second component tells whether it was allowed. */
  function GuardedRequest(u: User): (User, bool) {
    if CanMakeRequest(Some(u)) then (AfterRequest(u), true) else (u, false)
  }

  /** `k` guarded requests in a row: the user afterwards and how many were
      allowed. */
  function GuardedRequests(u: User, k: nat): (User, nat)
    decreases k
  {
    if k == 0 then (u, 0)
    else
      var (u', allowed) := GuardedRequest(u);
      var (last, n) := GuardedRequests(u', k - 1);
      (last, if allowed then n + 1 else n)
  }

  /** Checking the limit before counting keeps the counter within the limit,
      and of `k` attempts exactly as many are allowed as the limit leaves
      room for (all of them without a limit). */
  lemma {:induction false} GuardedRequestsBounded(u: User, k: nat)
    requires u.currentRequests <= u.requestLimit || u.requestLimit == 0
    ensures var (last, n) := GuardedRequests(u, k);
            last.login == u.login && last.pin == u.pin && last.requestLimit == u.requestLimit &&
            (u.requestLimit == 0 ==> last == u && n == k) &&
            (u.requestLimit != 0 ==>
               last.currentRequests <= u.requestLimit &&
               n == (if k <= u.requestLimit - u.currentRequests then k else u.requestLimit - u.currentRequests) &&
               last.currentRequests == u.currentRequests + n)
    decreases k
  {
    if k > 0 {
      GuardedRequestsBounded(GuardedRequest(u).0, k - 1);
    }
  }

  /** Counting without checking first can pass the limit. */
  lemma UnguardedRequestPassesLimit(u: User)
    requires 0 < u.requestLimit == u.currentRequests < Uint32Modulus - 1
    ensures !CanMakeRequest(Some(u))
    ensures AfterRequest(u).currentRequests == u.requestLimit + 1
  {
  }

  // ---------------------------------------------------------------------
  // The table

  /** `user_manager_t`. */
  class UserManager {
    var users: array<User>
    var userCount: int

    /** The table has room for `MAX_USERS` entries, at most that many are in
        use, their logins are distinct, and each was valid when
        registered. */
    ghost predicate Valid()
      reads this, users
    {
      users.Length == MaxUsers && 0 <= userCount <= MaxUsers &&
      LoginsDistinct(users[..userCount]) &&
      forall k :: 0 <= k < userCount ==> ValidLogin(users[k].login) && ValidPin(users[k].pin)
    }

    /** The storage of a `user_manager_t`, before initialisation. */
    constructor ()
      ensures users.Length == MaxUsers && fresh(users)
    {
      users := new User[MaxUsers];
      userCount := 0;
    }

    /** `user_manager_init`: the table becomes empty. */
    method Init() returns (r: int)
      requires users.Length == MaxUsers
      modifies this
      ensures r == 0
      ensures Valid()
      ensures users == old(users) && userCount == 0
    {
      userCount := 0;
      return 0;
    }

    /** `user_manager_register`: refuses (-1, nothing changed) a missing or
        invalid login, an invalid PIN, a full table, or a login already
        registered; otherwise writes the new user, with no limit and no
        requests, into the next free entry and succeeds (0). */
    method Register(login: Option<CString>, pin: uint32) returns (r: int)
      requires Valid()
      modifies this, users
      ensures Valid() && users == old(users)
      ensures r == 0 <==> login.Some? && ValidLogin(login.value) && ValidPin(pin) &&
                          old(userCount) < MaxUsers && !Registered(old(users[..userCount]), login.value)
      ensures r != 0 ==> r == -1 && userCount == old(userCount) && users[..] == old(users[..])
      ensures r == 0 ==> userCount == old(userCount) + 1 &&
                         users[..] == old(users[..])[old(userCount) := User(login.value, pin, 0, 0)]
    {
      var ok := IsValidLogin(login);
      if login.None? || !ok || !ValidPin(pin) {
        return -1;
      }
      if userCount >= MaxUsers {
        return -1;
      }
      var i := 0;
      while i < userCount
        invariant 0 <= i <= userCount
        invariant forall k :: 0 <= k < i ==> users[k].login != login.value
      {
        if users[i].login == login.value {
          return -1;
        }
        i := i + 1;
      }
      ghost var before := users[..userCount];
      users[userCount] := User(login.value, pin, 0, 0);
      userCount := userCount + 1;
      assert users[..userCount] == before + [User(login.value, pin, 0, 0)];
      return 0;
    }

    /** `user_manager_auth`: the entry whose login and PIN both match, or
        none; the table is only read. */
    method Auth(login: Option<CString>, pin: uint32) returns (user: Option<nat>)
      requires Valid()
      ensures login.None? ==> user.None?
      ensures login.Some? ==> user == FindCredentials(users[..userCount], login.value, pin)
    {
      if login.None? {
        return None;
      }
      var i := 0;
      while i < userCount
        invariant 0 <= i <= userCount
        invariant forall k :: 0 <= k < i ==> !(users[k].login == login.value && users[k].pin == pin)
      {
        if users[i].login == login.value && users[i].pin == pin {
          return Some(i);
        }
        i := i + 1;
      }
      return None;
    }

    /** `user_manager_set_limit`: for a registered login, sets that entry's
        limit and restarts its counter, and succeeds (0); a missing or
        unknown login fails (-1) and changes nothing. */
    method SetLimit(username: Option<CString>, limit: uint32) returns (r: int)
      requires Valid()
      modifies users
      ensures Valid()
      ensures r == 0 <==> username.Some? && Registered(old(users[..userCount]), username.value)
      ensures r != 0 ==> r == -1 && users[..] == old(users[..])
      ensures r == 0 ==>
                var i := FindLogin(old(users[..userCount]), username.value).value;
                users[..] == old(users[..])[i := old(users[i]).(requestLimit := limit, currentRequests := 0)]
    {
      if username.None? {
        return -1;
      }
      var i := 0;
      while i < userCount
        invariant 0 <= i <= userCount
        invariant forall k :: 0 <= k < i ==> users[k].login != username.value
      {
        if users[i].login == username.value {
          ghost var j := FindLogin(users[..userCount], username.value).value;
          assert j == i by {
            assert users[..userCount][i].login == username.value;
          }
          users[i] := users[i].(requestLimit := limit, currentRequests := 0);
          assert users[..userCount] == old(users[..userCount])[i := users[i]];
          return 0;
        }
        i := i + 1;
      }
      assert !Registered(users[..userCount], username.value);
      return -1;
    }

    /** `user_increment_requests` through a pointer to an entry, or NULL. */
    method IncrementRequests(user: Option<nat>)
      requires Valid()
      requires user.Some? ==> user.value < users.Length
      modifies users
      ensures Valid()
      ensures user.None? ==> users[..] == old(users[..])
      ensures user.Some? ==> users[..] == old(users[..])[user.value := AfterRequest(old(users[user.value]))]
    {
      if user.None? || users[user.value].requestLimit == 0 {
        return;
      }
      var i := user.value;
      users[i] := users[i].(currentRequests := (users[i].currentRequests + 1) % Uint32Modulus);
      assert forall k :: 0 <= k < userCount ==> users[k].login == old(users[k].login) && users[k].pin == old(users[k].pin);
      assert forall k :: 0 <= k < userCount ==> users[..userCount][k].login == old(users[..userCount])[k].login;
    }
  }
}
