/** The login routes of providers and consumers: a password check against a
    salted key, guarded by a per-account counter of failed logins that locks the
    account at `LOGIN_COUNT_LIMIT`. The key derivation and the token signer are
    parameters. */
module AuthController {
  import opened Tables
  import opened Database

  const LOGIN_COUNT_LIMIT: int := 5

  /** The key derivation parameters both `createHashedPassword` and
      `verifyPassword` pass to pbkdf2. */
  const ITERATIONS: nat := 104906
  const KEY_LENGTH: nat := 64
  const DIGEST: string := "sha512"

  /** `pbkdf2(password, salt, iterations, keyLength, digest)` followed by
      `toString('base64')`. */
  type Pbkdf2 = (string, string, nat, nat, string) -> string

  /** `jwt.sign({ type: 'JWT', id }, ...)` for the login id. */
  type Signer = string -> string

  // ---------------------------------------------------------------- passwords

  /** The stored form of a password. */
  datatype HashedPassword = HashedPassword(hashedPassword: string, salt: string)

  /** `verifyPassword`: the key derived from the candidate and the stored salt is
      compared with the stored key as a string. */
  predicate VerifyPassword(pbkdf2: Pbkdf2, password: string, userSalt: string, userPassword: string): (ok: bool)
    ensures ok <==> pbkdf2(password, userSalt, ITERATIONS, KEY_LENGTH, DIGEST) == userPassword
  {
    pbkdf2(password, userSalt, ITERATIONS, KEY_LENGTH, DIGEST) == userPassword
  }

  /** `createHashedPassword`, with the base64 salt `createSalt` drew passed in: the
      stored form verifies the password it was made from, and verifies another
      password exactly when that one derives the same key under the salt. */
  function CreateHashedPassword(pbkdf2: Pbkdf2, password: string, salt: string): (h: HashedPassword)
    ensures h.salt == salt
    ensures VerifyPassword(pbkdf2, password, h.salt, h.hashedPassword)
    ensures forall other :: VerifyPassword(pbkdf2, other, h.salt, h.hashedPassword)
                            <==> pbkdf2(other, salt, ITERATIONS, KEY_LENGTH, DIGEST)
                                 == pbkdf2(password, salt, ITERATIONS, KEY_LENGTH, DIGEST)
  {
    HashedPassword(pbkdf2(password, salt, ITERATIONS, KEY_LENGTH, DIGEST), salt)
  }

  // ---------------------------------------------------------------- login

  /** The `code` of a login answer; `ok` is `Granted`, the only answer with a token. */
  datatype LoginResponse = Empty | Locked | Fail | Granted(accessToken: string)

  /** A login's effect: the committed accounts, the answer, and the accounts as the
      request's own connection last saw them. */
  datatype LoginOutcome = LoginOutcome(accounts: map<string, Account>, response: LoginResponse,
                                       session: map<string, Account>)

  /** `POST /provider/login` and `POST /consumer/login` on their account table. An
      unknown id is `empty` and a locked account is `locked`, whatever the
      password, with nothing written. A wrong password adds one failure, committed
      at once, and is `fail`. A right password is `ok` with a token; the reset of
      the counter to 0 it issues is never committed, so the committed counter
      keeps its failures. */
  function Login(accounts: map<string, Account>, id: string, password: string, pbkdf2: Pbkdf2, sign: Signer)
    : (r: LoginOutcome)
    ensures r.response == Empty <==> id !in accounts
    ensures r.response == Locked <==> id in accounts && accounts[id].loginFailCount >= LOGIN_COUNT_LIMIT
    ensures r.response == Fail <==>
              && id in accounts && accounts[id].loginFailCount < LOGIN_COUNT_LIMIT
              && !VerifyPassword(pbkdf2, password, accounts[id].salt, accounts[id].password)
    ensures r.response.Granted? <==>
              && id in accounts && accounts[id].loginFailCount < LOGIN_COUNT_LIMIT
              && VerifyPassword(pbkdf2, password, accounts[id].salt, accounts[id].password)
    ensures r.response.Granted? ==> r.response.accessToken == sign(id)
    ensures r.response == Fail ==>
              r.accounts == accounts[id := accounts[id].(loginFailCount := accounts[id].loginFailCount + 1)]
    ensures r.response != Fail ==> r.accounts == accounts
    ensures r.response.Granted? ==> r.session == accounts[id := accounts[id].(loginFailCount := 0)]
    ensures !r.response.Granted? ==> r.session == r.accounts
  {
    if id !in accounts then LoginOutcome(accounts, Empty, accounts)
    else if accounts[id].loginFailCount >= LOGIN_COUNT_LIMIT then LoginOutcome(accounts, Locked, accounts)
    else
      var user := accounts[id];
      if !VerifyPassword(pbkdf2, password, user.salt, user.password) then
        var failed := accounts[id := user.(loginFailCount := user.loginFailCount + 1)];
        LoginOutcome(failed, Fail, failed)
      else
        LoginOutcome(accounts, Granted(sign(id)), accounts[id := user.(loginFailCount := 0)])
  }

  /** A login leaves every other account alone, and the counter of its own within
      the limit when it started there. */
  lemma LoginKeepsCounterBounded(accounts: map<string, Account>, id: string, password: string,
                                 pbkdf2: Pbkdf2, sign: Signer)
    requires id in accounts && 0 <= accounts[id].loginFailCount <= LOGIN_COUNT_LIMIT
    ensures id in Login(accounts, id, password, pbkdf2, sign).accounts
    ensures 0 <= Login(accounts, id, password, pbkdf2, sign).accounts[id].loginFailCount <= LOGIN_COUNT_LIMIT
    ensures Login(accounts, id, password, pbkdf2, sign).accounts[id].loginFailCount
            == accounts[id].loginFailCount + (if Login(accounts, id, password, pbkdf2, sign).response == Fail then 1 else 0)
    ensures forall other :: other in accounts && other != id ==>
              other in Login(accounts, id, password, pbkdf2, sign).accounts
              && Login(accounts, id, password, pbkdf2, sign).accounts[other] == accounts[other]
  {
  }

  /** The answers to a series of login attempts on one id, in order, and the
      committed accounts after them. */
  datatype Replayed = Replayed(accounts: map<string, Account>, responses: seq<LoginResponse>)

  function Replay(accounts: map<string, Account>, id: string, passwords: seq<string>, pbkdf2: Pbkdf2, sign: Signer)
    : (r: Replayed)
    ensures |r.responses| == |passwords|
    ensures id in accounts <==> id in r.accounts
    ensures id in accounts ==> r.accounts[id].password == accounts[id].password
                               && r.accounts[id].salt == accounts[id].salt
    decreases |passwords|
  {
    if |passwords| == 0 then Replayed(accounts, [])
    else
      var first := Login(accounts, id, passwords[0], pbkdf2, sign);
      var rest := Replay(first.accounts, id, passwords[1..], pbkdf2, sign);
      Replayed(rest.accounts, [first.response] + rest.responses)
  }

  /** A locked account stays locked: every later attempt, right password or not,
      is `locked` and writes nothing. */
  lemma {:induction false} LockedStaysLocked(accounts: map<string, Account>, id: string, passwords: seq<string>,
                                             pbkdf2: Pbkdf2, sign: Signer)
    requires id in accounts && accounts[id].loginFailCount >= LOGIN_COUNT_LIMIT
    ensures Replay(accounts, id, passwords, pbkdf2, sign).accounts == accounts
    ensures forall i :: 0 <= i < |passwords| ==> Replay(accounts, id, passwords, pbkdf2, sign).responses[i] == Locked
    decreases |passwords|
  {
    if |passwords| > 0 {
      LockedStaysLocked(accounts, id, passwords[1..], pbkdf2, sign);
    }
  }

  /** Is `password` wrong for the account `id`? */
  predicate Wrong(accounts: map<string, Account>, id: string, password: string, pbkdf2: Pbkdf2)
    requires id in accounts
  {
    !VerifyPassword(pbkdf2, password, accounts[id].salt, accounts[id].password)
  }

  /** From `c` failures, `LOGIN_COUNT_LIMIT - c` wrong passwords in a row each
      `fail`, and every attempt after them is `locked`. */
  lemma {:induction false} WrongPasswordsLock(accounts: map<string, Account>, id: string, passwords: seq<string>,
                                              pbkdf2: Pbkdf2, sign: Signer)
    requires id in accounts && 0 <= accounts[id].loginFailCount <= LOGIN_COUNT_LIMIT
    requires |passwords| >= LOGIN_COUNT_LIMIT - accounts[id].loginFailCount
    requires forall i :: 0 <= i < LOGIN_COUNT_LIMIT - accounts[id].loginFailCount ==>
               Wrong(accounts, id, passwords[i], pbkdf2)
    ensures forall i :: 0 <= i < |passwords| ==>
              Replay(accounts, id, passwords, pbkdf2, sign).responses[i]
              == if i < LOGIN_COUNT_LIMIT - accounts[id].loginFailCount then Fail else Locked
    ensures Replay(accounts, id, passwords, pbkdf2, sign).accounts[id].loginFailCount == LOGIN_COUNT_LIMIT
    decreases |passwords|
  {
    if accounts[id].loginFailCount == LOGIN_COUNT_LIMIT {
      LockedStaysLocked(accounts, id, passwords, pbkdf2, sign);
    } else {
      var first := Login(accounts, id, passwords[0], pbkdf2, sign);
      var rest := passwords[1..];
      assert first.response == Fail;
      forall i | 0 <= i < LOGIN_COUNT_LIMIT - first.accounts[id].loginFailCount
        ensures Wrong(first.accounts, id, rest[i], pbkdf2)
      {
        assert rest[i] == passwords[i + 1];
      }
      WrongPasswordsLock(first.accounts, id, rest, pbkdf2, sign);
      var r := Replay(accounts, id, passwords, pbkdf2, sign);
      assert r.responses == [Fail] + Replay(first.accounts, id, rest, pbkdf2, sign).responses;
    }
  }

  /** Five wrong passwords in a row on a fresh account lock it for good. */
  lemma FiveFailuresLock(accounts: map<string, Account>, id: string, passwords: seq<string>,
                         pbkdf2: Pbkdf2, sign: Signer)
    requires id in accounts && accounts[id].loginFailCount == 0
    requires |passwords| >= 5 && forall i :: 0 <= i < 5 ==> Wrong(accounts, id, passwords[i], pbkdf2)
    ensures forall i :: 0 <= i < 5 ==> Replay(accounts, id, passwords, pbkdf2, sign).responses[i] == Fail
    ensures forall i :: 5 <= i < |passwords| ==> Replay(accounts, id, passwords, pbkdf2, sign).responses[i] == Locked
  {
    WrongPasswordsLock(accounts, id, passwords, pbkdf2, sign);
  }

  /** One attempt, then the others. */
  lemma ReplayCons(accounts: map<string, Account>, id: string, password: string, passwords: seq<string>,
                   pbkdf2: Pbkdf2, sign: Signer)
    ensures Replay(accounts, id, [password] + passwords, pbkdf2, sign)
            == var first := Login(accounts, id, password, pbkdf2, sign);
               Replayed(Replay(first.accounts, id, passwords, pbkdf2, sign).accounts,
                        [first.response] + Replay(first.accounts, id, passwords, pbkdf2, sign).responses)
  {
    assert ([password] + passwords)[1..] == passwords;
  }

  /** The uncommitted reset leaves earlier failures in force: after four wrong
      passwords and the right one, one more wrong password locks the account.
      This is the sequence on `/provider/login`, which closes its connection, and
      so rolls the reset back, before answering; `/consumer/login` never closes
      its connection, and what its pending reset then does to a later attempt is
      not modelled. */
  lemma SuccessDoesNotClearFailures(accounts: map<string, Account>, id: string, right: string, wrong: string,
                                    pbkdf2: Pbkdf2, sign: Signer)
    requires id in accounts && accounts[id].loginFailCount == 0
    requires !Wrong(accounts, id, right, pbkdf2) && Wrong(accounts, id, wrong, pbkdf2)
    ensures Replay(accounts, id, [wrong, wrong, wrong, wrong, right, wrong], pbkdf2, sign).responses
            == [Fail, Fail, Fail, Fail, Granted(sign(id)), Fail]
    ensures Replay(accounts, id, [wrong, wrong, wrong, wrong, right, wrong], pbkdf2, sign).accounts[id].loginFailCount
            == LOGIN_COUNT_LIMIT
  {
    var a1 := Login(accounts, id, wrong, pbkdf2, sign).accounts;
    var a2 := Login(a1, id, wrong, pbkdf2, sign).accounts;
    var a3 := Login(a2, id, wrong, pbkdf2, sign).accounts;
    var a4 := Login(a3, id, wrong, pbkdf2, sign).accounts;
    var a5 := Login(a4, id, right, pbkdf2, sign).accounts;
    assert a4[id].loginFailCount == 4 && a5 == a4;
    ReplayCons(a5, id, wrong, [], pbkdf2, sign);
    ReplayCons(a4, id, right, [wrong], pbkdf2, sign);
    ReplayCons(a3, id, wrong, [right, wrong], pbkdf2, sign);
    ReplayCons(a2, id, wrong, [wrong, right, wrong], pbkdf2, sign);
    ReplayCons(a1, id, wrong, [wrong, wrong, right, wrong], pbkdf2, sign);
    ReplayCons(accounts, id, wrong, [wrong, wrong, wrong, right, wrong], pbkdf2, sign);
    assert [wrong] + [wrong, wrong, wrong, right, wrong] == [wrong, wrong, wrong, wrong, right, wrong];
  }

  // ---------------------------------------------------------------- the handlers

  /** Which account table a login route reads. */
  datatype Role = Provider | Consumer

  /** The account tables of a database, by role. */
  function AccountsOf(db: Db, role: Role): map<string, Account> {
    if role == Provider then db.providers else db.consumers
  }

  /** `POST /provider/login` and `POST /consumer/login` over the store: the two
      handlers run the same steps on their own table. */
  method PostLogin(store: Store, role: Role, id: string, password: string, pbkdf2: Pbkdf2, sign: Signer)
    returns (response: LoginResponse)
    requires store.Valid()
    modifies store
    ensures store.Valid()
    ensures var r := Login(AccountsOf(old(store.Snapshot()), role), id, password, pbkdf2, sign);
            && response == r.response
            && store.Snapshot() == if role == Provider then old(store.Snapshot()).(providers := r.accounts)
                                   else old(store.Snapshot()).(consumers := r.accounts)
  {
    var accounts := if role == Provider then store.providers else store.consumers;
    if id !in accounts {
      return Empty;
    }
    var user := accounts[id];
    if user.loginFailCount >= LOGIN_COUNT_LIMIT {
      return Locked;
    }
    var isVerified := pbkdf2(password, user.salt, ITERATIONS, KEY_LENGTH, DIGEST) == user.password;
    if !isVerified {
      var failed := accounts[id := user.(loginFailCount := user.loginFailCount + 1)];
      if role == Provider {
        store.providers := failed;
      } else {
        store.consumers := failed;
      }
      return Fail;
    }
    // the reset to 0 goes through the request's connection and is never committed
    var accessToken := sign(id);
    response := Granted(accessToken);
  }
}
