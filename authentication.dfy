/**
 * The login guard of the authentication service: a per-email ledger of failed
 * login attempts, a block once an email has failed `LoginAttemptsLimit` times
 * within `LoginCooldownDuration` milliseconds of its latest failure, and a
 * password comparison that always runs (against a decoy when the email is
 * unknown) so that response time does not reveal which emails exist.
 *
 * The password-hash comparison and the token generator are external
 * primitives; they are parameters here (`matches` and `token`). The clock is
 * the parameter `now` (milliseconds), and the user store is a map from email
 * to the stored user.
 */
module AuthenticationService {
  import opened Wrappers

  /** Failed attempts after which an email is blocked. */
  const LoginAttemptsLimit: nat := 5
  /** Length of the block, in milliseconds, counted from the latest failure. */
  const LoginCooldownDuration: int := 60000 * 30
  /** The password compared against when no user has the given email. */
  const DecoyPassword: string := "<RANDOM_PASSWORD_FILLER>"

  /** One entry of the ledger: how many failures, and when the latest one happened. */
  datatype AttemptRecord = AttemptRecord(attempts: nat, timestamp: int)

  /** The ledger of failed attempts, keyed by email. */
  type Ledger = map<string, AttemptRecord>

  /** A stored user as the user store returns it; `password` is the stored hash. */
  datatype User = User(id: string, name: string, email: string, password: string)

  /** What a successful login hands back to the caller. */
  datatype Payload = Payload(email: string, name: string, userId: string, token: string)

  /**
   * The three ways a login attempt ends: admitted with a payload, rejected
   * (the service's `null` result, the same for an unknown email and a wrong
   * password) or blocked (the service's "Too many failed login attempts." error).
   */
  datatype LoginResult = Admitted(payload: Payload) | Rejected | Blocked

  /**
   * Everything one attempt determines: its result, the ledger afterwards, and
   * the stored password the comparison was run against (`None` when no
   * comparison ran).
   */
  datatype Outcome = Outcome(result: LoginResult, ledger: Ledger, checkedAgainst: Option<string>)

  /** Every entry of the ledger records at least one failure. */
  ghost predicate LedgerValid(log: Ledger)
  {
    forall e :: e in log ==> log[e].attempts >= 1
  }

  /**
   * The guard in front of every attempt: too many recent failures for this
   * email. An email without an entry, or with fewer than the limit of
   * failures, is never blocked, whatever the time.
   */
  predicate IsBlocked(log: Ledger, email: string, now: int)
    ensures email !in log ==> !IsBlocked(log, email, now)
    ensures email in log && log[email].attempts < LoginAttemptsLimit ==> !IsBlocked(log, email, now)
    ensures email in log && now - log[email].timestamp >= LoginCooldownDuration ==> !IsBlocked(log, email, now)
  {
    && email in log
    && log[email].attempts >= LoginAttemptsLimit
    && now - log[email].timestamp < LoginCooldownDuration
  }

  /** The ledger after a successful login: the entry for `email` is removed. */
  function Clear(log: Ledger, email: string): (r: Ledger)
    ensures email !in r
    ensures forall e :: e != email ==> (e in r <==> e in log)
    ensures forall e :: e in r ==> r[e] == log[e]
  {
    log - {email}
  }

  /**
   * The ledger after a failed login: the entry for `email` counts one more
   * failure (one, if there was none) and carries the time of this failure.
   */
  function RecordFailure(log: Ledger, email: string, now: int): (r: Ledger)
    ensures email in r && r[email].timestamp == now
    ensures r[email].attempts == (if email in log then log[email].attempts else 0) + 1
    ensures r.Keys == log.Keys + {email}
    ensures forall e :: e in log && e != email ==> r[e] == log[e]
  {
    log[email := AttemptRecord((if email in log then log[email].attempts else 0) + 1, now)]
  }

  /** The credentials succeed: the user exists and the password matches its stored one. */
  predicate CredentialsMatch(users: map<string, User>, email: string, password: string,
                             matches: (string, string) -> bool)
  {
    email in users && matches(password, users[email].password)
  }

  /** The stored password the comparison runs against: the user's, or the decoy. */
  function StoredPasswordOrDecoy(users: map<string, User>, email: string): string
  {
    if email in users then users[email].password else DecoyPassword
  }

  /**
   * The whole effect of one login attempt, as a function of the ledger before
   * it. A comparison runs exactly when the attempt is not blocked, and an
   * attempt keeps every entry at one failure or more.
   */
  function Attempt(log: Ledger, users: map<string, User>, email: string, password: string, now: int,
                   matches: (string, string) -> bool, token: (string, string) -> string): (o: Outcome)
    ensures o.checkedAgainst.Some? <==> o.result != Blocked
    ensures o.result != Blocked ==> o.checkedAgainst == Some(StoredPasswordOrDecoy(users, email))
    ensures o.result.Admitted? ==> CredentialsMatch(users, email, password, matches)
    ensures LedgerValid(log) ==> LedgerValid(o.ledger)
  {
    if IsBlocked(log, email, now) then
      Outcome(Blocked, log, None)
    else
      var userPassword := StoredPasswordOrDecoy(users, email);
      var passwordChecked := matches(password, userPassword);
      if email in users && passwordChecked then
        var user := users[email];
        Outcome(Admitted(Payload(user.email, user.name, user.id, token(user.email, user.id))),
                Clear(log, email), Some(userPassword))
      else
        Outcome(Rejected, RecordFailure(log, email, now), Some(userPassword))
  }

  /** The service's module-level ledger, held by one guard object. */
  class AccessGuard {
    var loginAttemptsLog: Ledger

    ghost predicate Valid()
      reads this
    {
      LedgerValid(loginAttemptsLog)
    }

    /** A fresh process: no failures recorded. */
    constructor ()
      ensures Valid() && loginAttemptsLog == map[]
    {
      loginAttemptsLog := map[];
    }

    /**
     * One login attempt at time `now`. `checkedAgainst` reports the stored
     * password handed to the comparison, `None` when the attempt was blocked
     * before any comparison.
     */
    method CheckLoginCredentials(email: string, password: string, now: int, users: map<string, User>,
                                 matches: (string, string) -> bool, token: (string, string) -> string)
      returns (r: LoginResult, checkedAgainst: Option<string>)
      requires Valid()
      modifies this
      ensures Valid()
      ensures Outcome(r, loginAttemptsLog, checkedAgainst)
              == Attempt(old(loginAttemptsLog), users, email, password, now, matches, token)
      ensures r == Blocked ==> loginAttemptsLog == old(loginAttemptsLog)
      ensures r.Admitted? ==> email !in loginAttemptsLog
      ensures r == Rejected ==> email in loginAttemptsLog && loginAttemptsLog[email].timestamp == now
      ensures forall e :: e != email ==>
                (e in loginAttemptsLog <==> e in old(loginAttemptsLog))
                && (e in loginAttemptsLog ==> loginAttemptsLog[e] == old(loginAttemptsLog)[e])
    {
      if IsBlocked(loginAttemptsLog, email, now) {
        return Blocked, None;
      }

      var user: Option<User> := if email in users then Some(users[email]) else None;
      var userPassword := if user.Some? then user.value.password else DecoyPassword;
      var passwordChecked := matches(password, userPassword);
      checkedAgainst := Some(userPassword);

      if user.Some? && passwordChecked {
        loginAttemptsLog := Clear(loginAttemptsLog, email);
        r := Admitted(Payload(user.value.email, user.value.name, user.value.id,
                              token(user.value.email, user.value.id)));
      } else {
        loginAttemptsLog := RecordFailure(loginAttemptsLog, email, now);
        r := Rejected;
      }
    }
  }

  // ---------------------------------------------------------------------------
  // Properties of a single attempt

  /** An attempt is blocked exactly when the guard condition holds; then nothing else happens. */
  lemma BlockedIff(log: Ledger, users: map<string, User>, email: string, password: string, now: int,
                   matches: (string, string) -> bool, token: (string, string) -> string)
    ensures Attempt(log, users, email, password, now, matches, token).result == Blocked
            <==> (email in log && log[email].attempts >= LoginAttemptsLimit
                  && now - log[email].timestamp < LoginCooldownDuration)
    ensures Attempt(log, users, email, password, now, matches, token).result == Blocked ==>
              Attempt(log, users, email, password, now, matches, token).ledger == log
              && Attempt(log, users, email, password, now, matches, token).checkedAgainst == None
  {
  }

  /**
   * Every attempt that is not blocked runs the comparison, against the user's
   * stored password or, for an unknown email, against the decoy.
   */
  lemma ComparisonAlwaysRuns(log: Ledger, users: map<string, User>, email: string, password: string, now: int,
                             matches: (string, string) -> bool, token: (string, string) -> string)
    ensures var o := Attempt(log, users, email, password, now, matches, token);
            (o.checkedAgainst.Some? <==> o.result != Blocked)
            && (o.result != Blocked && email in users ==> o.checkedAgainst == Some(users[email].password))
            && (o.result != Blocked && email !in users ==> o.checkedAgainst == Some(DecoyPassword))
  {
  }

  /**
   * Admission needs both an existing user and a matching password, so the decoy
   * never admits, even if it happens to match; the payload carries the user's
   * identity and the token generated for it.
   */
  lemma AdmittedIff(log: Ledger, users: map<string, User>, email: string, password: string, now: int,
                    matches: (string, string) -> bool, token: (string, string) -> string)
    ensures var o := Attempt(log, users, email, password, now, matches, token);
            (o.result.Admitted? <==> !IsBlocked(log, email, now) && CredentialsMatch(users, email, password, matches))
            && (email !in users ==> !o.result.Admitted?)
            && (o.result.Admitted? ==>
                  var u := users[email];
                  o.result.payload == Payload(u.email, u.name, u.id, token(u.email, u.id)))
  {
  }

  /** After a successful login the entry for the email is gone (deleted, not reset to zero). */
  lemma SuccessDeletesEntry(log: Ledger, users: map<string, User>, email: string, password: string, now: int,
                            matches: (string, string) -> bool, token: (string, string) -> string)
    requires !IsBlocked(log, email, now) && CredentialsMatch(users, email, password, matches)
    ensures var o := Attempt(log, users, email, password, now, matches, token);
            o.result.Admitted? && email !in o.ledger
  {
  }

  /**
   * A failed attempt, for an unknown email as for a wrong password, counts one
   * more failure, stamps it with `now` and yields the rejected result.
   */
  lemma FailureCounts(log: Ledger, users: map<string, User>, email: string, password: string, now: int,
                      matches: (string, string) -> bool, token: (string, string) -> string)
    requires !IsBlocked(log, email, now) && !CredentialsMatch(users, email, password, matches)
    ensures var o := Attempt(log, users, email, password, now, matches, token);
            && o.result == Rejected
            && email in o.ledger
            && o.ledger[email] == AttemptRecord((if email in log then log[email].attempts else 0) + 1, now)
  {
  }

  /**
   * An unknown email and a known email with a wrong password are
   * indistinguishable: same result, same ledger afterwards, and in both cases a
   * comparison ran.
   */
  lemma UnknownEmailLooksLikeWrongPassword(log: Ledger, absent: map<string, User>, present: map<string, User>,
                                           email: string, password: string, now: int,
                                           matches: (string, string) -> bool, token: (string, string) -> string)
    requires email !in absent
    requires email in present && !matches(password, present[email].password)
    ensures var a := Attempt(log, absent, email, password, now, matches, token);
            var p := Attempt(log, present, email, password, now, matches, token);
            a.result == p.result && a.ledger == p.ledger
            && (a.result != Blocked ==> a.checkedAgainst.Some? && p.checkedAgainst.Some?)
  {
  }

  /**
   * An attempt keeps every entry at one failure or more, and touches no entry
   * but the one for the email it was made with.
   */
  lemma AttemptPreservesLedger(log: Ledger, users: map<string, User>, email: string, password: string, now: int,
                               matches: (string, string) -> bool, token: (string, string) -> string)
    requires LedgerValid(log)
    ensures var o := Attempt(log, users, email, password, now, matches, token);
            LedgerValid(o.ledger)
            && forall e :: e != email ==> (e in o.ledger <==> e in log) && (e in log ==> o.ledger[e] == log[e])
  {
  }

  /**
   * The counter is not reset when a block runs out: one further failure once the
   * cooldown has passed blocks the email again, for exactly
   * `LoginCooldownDuration` from that failure.
   */
  lemma FailureAfterCooldownBlocksAgain(log: Ledger, users: map<string, User>, email: string, password: string,
                                        now: int, matches: (string, string) -> bool, token: (string, string) -> string)
    requires email in log && log[email].attempts >= LoginAttemptsLimit
    requires now - log[email].timestamp >= LoginCooldownDuration
    requires !CredentialsMatch(users, email, password, matches)
    ensures var o := Attempt(log, users, email, password, now, matches, token);
            && o.result == Rejected
            && o.ledger[email].attempts == log[email].attempts + 1
            && forall t :: t >= now ==> (IsBlocked(o.ledger, email, t) <==> t < now + LoginCooldownDuration)
  {
  }

  // ---------------------------------------------------------------------------
  // Sequences of attempts

  /** One call of the login operation: who, with which password, at what time. */
  datatype Request = Request(email: string, password: string, now: int)

  /** The ledger after the requests have been handled one after another, in order. */
  function Replay(log: Ledger, users: map<string, User>, reqs: seq<Request>,
                  matches: (string, string) -> bool, token: (string, string) -> string): Ledger
    decreases |reqs|
  {
    if reqs == [] then log
    else
      var last := reqs[|reqs| - 1];
      Attempt(Replay(log, users, reqs[..|reqs| - 1], matches, token), users,
              last.email, last.password, last.now, matches, token).ledger
  }

  /** Every request of `reqs` is for `email` and with credentials that do not succeed. */
  predicate AllFailFor(users: map<string, User>, reqs: seq<Request>, email: string,
                       matches: (string, string) -> bool)
  {
    forall i :: 0 <= i < |reqs| ==>
      reqs[i].email == email && !CredentialsMatch(users, email, reqs[i].password, matches)
  }

  /** Handling any sequence of attempts keeps every entry at one failure or more. */
  lemma {:induction false} ReplayKeepsLedgerValid(log: Ledger, users: map<string, User>, reqs: seq<Request>,
                                                  matches: (string, string) -> bool, token: (string, string) -> string)
    requires LedgerValid(log)
    ensures LedgerValid(Replay(log, users, reqs, matches, token))
    decreases |reqs|
  {
    if reqs != [] {
      var prefix := reqs[..|reqs| - 1];
      var last := reqs[|reqs| - 1];
      ReplayKeepsLedgerValid(log, users, prefix, matches, token);
      AttemptPreservesLedger(Replay(log, users, prefix, matches, token), users,
                             last.email, last.password, last.now, matches, token);
    }
  }

  /**
   * Accounts are independent: attempts made with other emails leave the entry
   * of `email`, and so whether it is blocked at any time, as it was.
   */
  lemma {:induction false} ReplayOtherEmailsUntouched(log: Ledger, users: map<string, User>, reqs: seq<Request>,
                                                      email: string, matches: (string, string) -> bool,
                                                      token: (string, string) -> string)
    requires forall i :: 0 <= i < |reqs| ==> reqs[i].email != email
    ensures var r := Replay(log, users, reqs, matches, token);
            (email in r <==> email in log) && (email in log ==> r[email] == log[email])
            && forall t :: IsBlocked(r, email, t) <==> IsBlocked(log, email, t)
    decreases |reqs|
  {
    if reqs != [] {
      var prefix := reqs[..|reqs| - 1];
      ReplayOtherEmailsUntouched(log, users, prefix, email, matches, token);
    }
  }

  /**
   * Starting from no entry, up to `LoginAttemptsLimit` failures in a row are
   * never blocked (whatever their times) and leave an entry counting exactly
   * those failures, stamped with the time of the last one.
   */
  lemma {:induction false} FailuresAccumulate(log: Ledger, users: map<string, User>, reqs: seq<Request>,
                                              email: string, matches: (string, string) -> bool,
                                              token: (string, string) -> string)
    requires email !in log
    requires |reqs| <= LoginAttemptsLimit
    requires AllFailFor(users, reqs, email, matches)
    ensures var r := Replay(log, users, reqs, matches, token);
            (reqs == [] ==> email !in r)
            && (reqs != [] ==> email in r && r[email] == AttemptRecord(|reqs|, reqs[|reqs| - 1].now))
    decreases |reqs|
  {
    if reqs != [] {
      var prefix := reqs[..|reqs| - 1];
      var last := reqs[|reqs| - 1];
      assert AllFailFor(users, prefix, email, matches) by {
        forall i | 0 <= i < |prefix| ensures prefix[i] == reqs[i] { }
      }
      FailuresAccumulate(log, users, prefix, email, matches, token);
      var before := Replay(log, users, prefix, matches, token);
      assert !IsBlocked(before, email, last.now);
      FailureCounts(before, users, email, last.password, last.now, matches, token);
    }
  }

  /**
   * After `LoginAttemptsLimit` failures in a row from no entry, any attempt
   * within `LoginCooldownDuration` of the last of them is blocked before any
   * comparison, even with the right password, and changes nothing.
   */
  lemma LimitFailuresThenBlocked(log: Ledger, users: map<string, User>, reqs: seq<Request>,
                                 email: string, password: string, now: int,
                                 matches: (string, string) -> bool, token: (string, string) -> string)
    requires email !in log
    requires |reqs| == LoginAttemptsLimit
    requires AllFailFor(users, reqs, email, matches)
    requires now - reqs[|reqs| - 1].now < LoginCooldownDuration
    ensures var r := Replay(log, users, reqs, matches, token);
            Attempt(r, users, email, password, now, matches, token) == Outcome(Blocked, r, None)
  {
    FailuresAccumulate(log, users, reqs, email, matches, token);
  }

  /**
   * Attempts made while an email is blocked are turned away without touching
   * the ledger, so they do not push the end of the block back: it stays
   * `LoginCooldownDuration` after the failure that caused it.
   */
  lemma {:induction false} BlockedAttemptsDoNotExtend(log: Ledger, users: map<string, User>, reqs: seq<Request>,
                                                      email: string, matches: (string, string) -> bool,
                                                      token: (string, string) -> string)
    requires email in log && log[email].attempts >= LoginAttemptsLimit
    requires forall i :: 0 <= i < |reqs| ==>
               reqs[i].email == email && reqs[i].now - log[email].timestamp < LoginCooldownDuration
    ensures Replay(log, users, reqs, matches, token) == log
    decreases |reqs|
  {
    if reqs != [] {
      var prefix := reqs[..|reqs| - 1];
      PrefixAgrees(prefix, reqs);
      BlockedAttemptsDoNotExtend(log, users, prefix, email, matches, token);
    }
  }

  /** Every element of a prefix of `reqs` is the element of `reqs` at the same index. */
  lemma PrefixAgrees(prefix: seq<Request>, reqs: seq<Request>)
    requires reqs != [] && prefix == reqs[..|reqs| - 1]
    ensures forall i :: 0 <= i < |prefix| ==> prefix[i] == reqs[i]
  {
  }

  /**
   * A worked run: five wrong passwords for one email at minutes 0 to 4; an
   * attempt at minute 10 is blocked; at minute 35 the block has run out, the
   * right password is checked and admitted, and the entry is removed.
   */
  lemma LockoutScenario(users: map<string, User>, wrong: string, right: string,
                        matches: (string, string) -> bool, token: (string, string) -> string)
    requires "a@x.com" in users
    requires !matches(wrong, users["a@x.com"].password) && matches(right, users["a@x.com"].password)
    ensures var minute := 60000;
            var reqs := [Request("a@x.com", wrong, 0), Request("a@x.com", wrong, minute),
                         Request("a@x.com", wrong, 2 * minute), Request("a@x.com", wrong, 3 * minute),
                         Request("a@x.com", wrong, 4 * minute)];
            var r := Replay(map[], users, reqs, matches, token);
            && r["a@x.com"] == AttemptRecord(5, 4 * minute)
            && Attempt(r, users, "a@x.com", right, 10 * minute, matches, token).result == Blocked
            && Attempt(r, users, "a@x.com", right, 35 * minute, matches, token).result.Admitted?
            && "a@x.com" !in Attempt(r, users, "a@x.com", right, 35 * minute, matches, token).ledger
  {
    var minute := 60000;
    var reqs := [Request("a@x.com", wrong, 0), Request("a@x.com", wrong, minute),
                 Request("a@x.com", wrong, 2 * minute), Request("a@x.com", wrong, 3 * minute),
                 Request("a@x.com", wrong, 4 * minute)];
    FailuresAccumulate(map[], users, reqs, "a@x.com", matches, token);
  }
}
