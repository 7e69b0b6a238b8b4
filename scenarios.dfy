/**
 * Request sequences from the service's test suite, replayed through the model:
 * each method drives a fresh AccountService (or a given one) through the
 * handlers and states the statuses the clients observe.
 */
module Scenarios {
  import opened Wrappers
  import opened Jwt
  import opened Accounts

  /**
   * Register alice, register her again, log in, read the profile, delete it,
   * then read and delete again with the same, still unexpired token.
   */
  method AliceLifecycle(key: nat, now: Time, salt1: nat, salt2: nat) returns (statuses: seq<int>, username: Option<string>)
    ensures statuses == [Created, Conflict, Ok, Ok, Ok, NotFound, NotFound]
    ensures username == Some("alice")
  {
    var svc := new AccountService(key);
    var registered := svc.Register(Some("alice"), Some("pw1"), salt1);
    var duplicate := svc.Register(Some("alice"), Some("pw2"), salt2);
    RegisterThenLogin(map[], 0, key, now, "alice", "pw1", salt1);
    var login := Login(svc.accounts, key, now, "alice", "pw1");
    var profile := GetUser(svc.accounts, key, now, login.body);
    username := profile.body;
    var deleted := svc.Delete(login.body, now);
    VerifySign(key, now, 0, now);
    var profileAfter := GetUser(svc.accounts, key, now, login.body);
    var deletedAgain := svc.Delete(login.body, now);
    statuses := [registered, duplicate, login.status, profile.status, deleted, profileAfter.status, deletedAgain];
  }

  /**
   * Register testuser and log in, then update only the username, only the
   * password, and both; the profile then shows the last username, and only
   * the last password logs in.
   */
  method UpdateInSteps(key: nat, now: Time, salts: seq<nat>)
    returns (statuses: seq<int>, username: Option<string>, newLogin: int, oldLogin: int)
    requires |salts| == 4
    ensures statuses == [Created, Ok, Ok, Ok, Ok]
    ensures username == Some("updateduser2")
    ensures newLogin == Ok && oldLogin == Unauthorized
  {
    var svc := new AccountService(key);
    var registered := svc.Register(Some("testuser"), Some("testpassword"), salts[0]);
    RegisterThenLogin(map[], 0, key, now, "testuser", "testpassword", salts[0]);
    var login := Login(svc.accounts, key, now, "testuser", "testpassword");
    VerifySign(key, now, 0, now);
    var first := svc.Update(login.body, Some("updateduser"), None, now, salts[1]);
    var second := svc.Update(login.body, None, Some("updatedpassword"), now, salts[2]);
    var third := svc.Update(login.body, Some("updateduser2"), Some("updatedpassword2"), now, salts[3]);
    var profile := GetUser(svc.accounts, key, now, login.body);
    username := profile.body;
    assert svc.accounts == map[0 := Account("updateduser2", Bcrypt.Hash("updatedpassword2", salts[3]))];
    assert FindByUsername(svc.accounts, "updateduser2") == Some(0);
    newLogin := Login(svc.accounts, key, now, "updateduser2", "updatedpassword2").status;
    oldLogin := Login(svc.accounts, key, now, "updateduser2", "updatedpassword").status;
    statuses := [registered, login.status, first, second, third];
  }

  /** delete is not idempotent: after a 200, the same request answers 404; it never answers 200 twice. */
  method DeleteTwice(svc: AccountService, header: Option<string>, now: Time) returns (first: int, second: int)
    requires svc.Valid()
    modifies svc
    ensures svc.Valid()
    ensures first == Ok ==> second == NotFound
    ensures second != Ok
  {
    first := svc.Delete(header, now);
    second := svc.Delete(header, now);
  }

  /** The test suite's forged token is refused with 500 by /getuser, before any lookup. */
  lemma ForgedTokenRejected(t: Table, key: nat, now: Time)
    ensures GetUser(t, key, now, Some("invalidtoken")) == Reply(ServerError, None)
  {
    VerifyNeedsSegments(key, now, "invalidtoken");
  }
}
