/**
 * The account service of express-login-api: a table of accounts keyed by id,
 * and the five route handlers over it. /login and /getuser only read the
 * table and are functions of it; /register, /update and /delete change it and
 * are methods of AccountService. Every handler is a fixed chain of checks,
 * each ending the request with a status code.
 */
module Accounts {
  import opened Wrappers
  import opened Bcrypt
  import opened Jwt

  type Id = nat

  /** A stored user: the schema's required, unique username and required password hash. */
  datatype Account = Account(username: string, password: Digest)

  type Table = map<Id, Account>

  const Ok: int := 200
  const Created: int := 201
  const BadRequest: int := 400
  const Unauthorized: int := 401
  const NotFound: int := 404
  const Conflict: int := 409
  const ServerError: int := 500

  /** A status code with the payload the client reads: the token of /login, the username of /getuser. */
  datatype Reply = Reply(status: int, body: Option<string>)

  /** JavaScript truthiness of an optional request string: present and not empty. */
  predicate Truthy(field: Option<string>) {
    field.Some? && field.value != ""
  }

  /** The unique index on username. */
  ghost predicate UniqueUsernames(t: Table) {
    forall a, b | a in t && b in t :: t[a].username == t[b].username ==> a == b
  }

  predicate Taken(t: Table, username: string) {
    exists id :: id in t && t[id].username == username
  }

  /** User.findOne({ username }). */
  function FindByUsername(t: Table, username: string): (r: Option<Id>)
    requires UniqueUsernames(t)
    ensures r.Some? <==> Taken(t, username)
    ensures r.Some? ==> r.value in t && t[r.value].username == username
    ensures r.Some? ==> forall id :: id in t && t[id].username == username ==> id == r.value
  {
    if Taken(t, username) then
      Some(var id :| id in t && t[id].username == username; id)
    else
      None
  }

  /**
   * POST /login: 404 when no account has the username, whatever the password;
   * 401 when it has one and the password does not match its hash; otherwise
   * 200 with a token whose subject is that account's id, issued at time now.
   */
  function Login(t: Table, key: nat, now: Time, username: string, password: string): (r: Reply)
    requires UniqueUsernames(t)
    ensures r.status in {Ok, Unauthorized, NotFound}
    ensures r.status == NotFound <==> !Taken(t, username)
    ensures r.status == Unauthorized <==>
              exists id :: id in t && t[id].username == username && !Matches(password, t[id].password)
    ensures r.status == Ok <==>
              exists id :: id in t && t[id].username == username && Matches(password, t[id].password)
                           && r.body == Some(Sign(key, id, now))
    ensures r.status != Ok ==> r.body == None
  {
    match FindByUsername(t, username)
    case None => Reply(NotFound, None)
    case Some(id) =>
      if !Matches(password, t[id].password) then Reply(Unauthorized, None)
      else Reply(Ok, Some(Sign(key, id, now)))
  }

  /** The outcome of the x-access-token checks that open /getuser, /update and /delete. */
  datatype TokenCheck = NoToken | BadToken | Subject(id: Id)

  /** 401 when the header is missing or empty, 500 when jwt.verify fails, else the token's subject. */
  function CheckToken(key: nat, now: Time, header: Option<string>): (r: TokenCheck)
    ensures r == NoToken <==> !Truthy(header)
    ensures r == BadToken <==> Truthy(header) && Verify(key, now, header.value).None?
    ensures r.Subject? ==> Truthy(header) && Verify(key, now, header.value) == Some(r.id)
    ensures Truthy(header) && Verify(key, now, header.value).Some? ==> r == Subject(Verify(key, now, header.value).value)
  {
    if !Truthy(header) then NoToken
    else match Verify(key, now, header.value)
      case None => BadToken
      case Some(id) => Subject(id)
  }

  /** The status of a request whose token check failed. */
  function RejectStatus(c: TokenCheck): (status: int)
    requires !c.Subject?
    ensures c == NoToken <==> status == Unauthorized
    ensures c == BadToken <==> status == ServerError
  {
    if c == NoToken then Unauthorized else ServerError
  }

  /**
   * GET /getuser: the token checks, then 404 if the token's subject is no
   * longer in the table, else 200 with its current username.
   */
  function GetUser(t: Table, key: nat, now: Time, header: Option<string>): (r: Reply)
    ensures r.status in {Ok, Unauthorized, NotFound, ServerError}
    ensures r.status == Unauthorized <==> CheckToken(key, now, header) == NoToken
    ensures r.status == ServerError <==> CheckToken(key, now, header) == BadToken
    ensures r.status == NotFound <==> CheckToken(key, now, header).Subject? && CheckToken(key, now, header).id !in t
    ensures r.status == Ok <==>
              CheckToken(key, now, header).Subject? && CheckToken(key, now, header).id in t
              && r.body == Some(t[CheckToken(key, now, header).id].username)
    ensures r.status != Ok ==> r.body == None
  {
    match CheckToken(key, now, header)
    case Subject(id) =>
      if id !in t then Reply(NotFound, None) else Reply(Ok, Some(t[id].username))
    case _ => Reply(RejectStatus(CheckToken(key, now, header)), None)
  }

  /** Whether renaming account id to username would collide with another account. */
  predicate RenameClashes(t: Table, id: Id, username: string) {
    exists other :: other in t && other != id && t[other].username == username
  }

  /**
   * The record /update saves: the username replaced when a truthy one is
   * given, the password rehashed when a truthy one is given, nothing else.
   */
  function Patched(a: Account, username: Option<string>, password: Option<string>, salt: nat): (r: Account)
    ensures Truthy(username) ==> r.username == username.value
    ensures !Truthy(username) ==> r.username == a.username
    ensures Truthy(password) ==> Matches(password.value, r.password)
                                 && forall p :: Matches(p, r.password) ==> p == password.value
    ensures !Truthy(password) ==> r.password == a.password
  {
    Account(if Truthy(username) then username.value else a.username,
            if Truthy(password) then Hash(password.value, salt) else a.password)
  }

  /** The users collection together with the id generator of the store. */
  class AccountService {
    /** The JWT secret, read once at start-up. */
    const key: nat
    var accounts: Table
    /** Ids are never reused: every id handed out so far is below nextId. */
    var nextId: Id

    ghost predicate Valid()
      reads this
    {
      && UniqueUsernames(accounts)
      && forall id | id in accounts :: id < nextId
    }

    constructor (key: nat)
      ensures Valid()
      ensures this.key == key && accounts == map[] && nextId == 0
    {
      this.key := key;
      accounts := map[];
      nextId := 0;
    }

    /**
     * POST /register: 400 unless both fields are truthy, then 409 if the
     * username is taken, else 201 and one new account under a fresh id,
     * holding the username and the hash of the password.
     */
    method Register(username: Option<string>, password: Option<string>, salt: nat) returns (status: int)
      requires Valid()
      modifies this
      ensures Valid()
      ensures !Truthy(username) || !Truthy(password) ==> status == BadRequest && unchanged(this)
      ensures Truthy(username) && Truthy(password) && Taken(old(accounts), username.value) ==>
                status == Conflict && unchanged(this)
      ensures Truthy(username) && Truthy(password) && !Taken(old(accounts), username.value) ==>
                && status == Created
                && old(nextId) !in old(accounts)
                && accounts == old(accounts)[old(nextId) := Account(username.value, Hash(password.value, salt))]
                && nextId == old(nextId) + 1
    {
      if !Truthy(username) || !Truthy(password) {
        return BadRequest;
      }
      if FindByUsername(accounts, username.value).Some? {
        return Conflict;
      }
      var hashed := Hash(password.value, salt);
      accounts := accounts[nextId := Account(username.value, hashed)];
      nextId := nextId + 1;
      status := Created;
    }

    /**
     * PUT /update: the token checks, then 404 if the subject is gone, then
     * the patched record is saved (200), unless the new username belongs to
     * another account, which the unique index rejects (500).
     */
    method Update(header: Option<string>, username: Option<string>, password: Option<string>, now: Time, salt: nat)
      returns (status: int)
      requires Valid()
      modifies this
      ensures Valid() && nextId == old(nextId)
      ensures !CheckToken(key, now, header).Subject? ==>
                status == RejectStatus(CheckToken(key, now, header)) && unchanged(this)
      ensures CheckToken(key, now, header).Subject? ==>
                var id := CheckToken(key, now, header).id;
                if id !in old(accounts) then
                  status == NotFound && unchanged(this)
                else if Truthy(username) && RenameClashes(old(accounts), id, username.value) then
                  status == ServerError && unchanged(this)
                else
                  status == Ok && accounts == old(accounts)[id := Patched(old(accounts)[id], username, password, salt)]
    {
      var check := CheckToken(key, now, header);
      if !check.Subject? {
        return RejectStatus(check);
      }
      var id := check.id;
      if id !in accounts {
        return NotFound;
      }
      if Truthy(username) && RenameClashes(accounts, id, username.value) {
        return ServerError;
      }
      accounts := accounts[id := Patched(accounts[id], username, password, salt)];
      status := Ok;
    }

    /**
     * DELETE /delete: the token checks, then 404 if nothing was deleted, else
     * 200 with exactly the subject's account removed.
     */
    method Delete(header: Option<string>, now: Time) returns (status: int)
      requires Valid()
      modifies this
      ensures Valid() && nextId == old(nextId)
      ensures !CheckToken(key, now, header).Subject? ==>
                status == RejectStatus(CheckToken(key, now, header)) && unchanged(this)
      ensures CheckToken(key, now, header).Subject? ==>
                var id := CheckToken(key, now, header).id;
                if id !in old(accounts) then
                  status == NotFound && unchanged(this)
                else
                  status == Ok && accounts == old(accounts) - {id}
    {
      var check := CheckToken(key, now, header);
      if !check.Subject? {
        return RejectStatus(check);
      }
      if check.id !in accounts {
        return NotFound;
      }
      accounts := accounts - {check.id};
      status := Ok;
    }
  }

  /** A token from a successful login names the account with that username, for the whole of its lifetime. */
  lemma LoginTokenNamesAccount(t: Table, key: nat, now: Time, later: Time, username: string, password: string)
    requires UniqueUsernames(t)
    requires Login(t, key, now, username, password).status == Ok
    requires later < now + Ttl
    ensures var id := FindByUsername(t, username).value;
            && Login(t, key, now, username, password).body == Some(Sign(key, id, now))
            && Verify(key, later, Sign(key, id, now)) == Some(id)
            && Matches(password, t[id].password)
  {
    var id := FindByUsername(t, username).value;
    VerifySign(key, later, id, now);
  }

  /** /getuser with a token from /login answers 200 and the username logged in with. */
  lemma LoginThenGetUser(t: Table, key: nat, now: Time, later: Time, username: string, password: string)
    requires UniqueUsernames(t)
    requires Login(t, key, now, username, password).status == Ok
    requires now <= later < now + Ttl
    ensures GetUser(t, key, later, Login(t, key, now, username, password).body) == Reply(Ok, Some(username))
  {
    var id := FindByUsername(t, username).value;
    VerifySign(key, later, id, now);
  }

  /** After a registration, logging in with the same pair succeeds and the token names the new account. */
  lemma RegisterThenLogin(t: Table, id: Id, key: nat, now: Time, username: string, password: string, salt: nat)
    requires UniqueUsernames(t) && id !in t && !Taken(t, username)
    ensures var t' := t[id := Account(username, Hash(password, salt))];
            && UniqueUsernames(t')
            && Login(t', key, now, username, password) == Reply(Ok, Some(Sign(key, id, now)))
  {
  }

  /** After a password-only update the new password logs in and the old one is refused with 401. */
  lemma PasswordChangeLogin(t: Table, id: Id, key: nat, now: Time, oldPassword: string, newPassword: string, salt: nat)
    requires UniqueUsernames(t) && id in t
    requires newPassword != "" && oldPassword != newPassword
    ensures var t' := t[id := Patched(t[id], None, Some(newPassword), salt)];
            && UniqueUsernames(t')
            && Login(t', key, now, t[id].username, newPassword).status == Ok
            && Login(t', key, now, t[id].username, oldPassword).status == Unauthorized
  {
    var t' := t[id := Patched(t[id], None, Some(newPassword), salt)];
    assert t'[id].username == t[id].username;
    assert Matches(newPassword, t'[id].password) && !Matches(oldPassword, t'[id].password);
    assert UniqueUsernames(t');
    assert FindByUsername(t', t[id].username) == Some(id);
  }

  /** A token outlives its account: once the subject is gone, /getuser answers 404 until the token expires. */
  lemma TokenOutlivesAccount(t: Table, key: nat, id: Id, iat: Time, now: Time)
    requires id !in t
    requires now < iat + Ttl
    ensures GetUser(t, key, now, Some(Sign(key, id, iat))) == Reply(NotFound, None)
  {
    VerifySign(key, now, id, iat);
  }

  /** An expired token is refused with 500, whether or not its account still exists. */
  lemma ExpiredTokenRejected(t: Table, key: nat, id: Id, iat: Time, now: Time)
    requires iat + Ttl <= now
    ensures GetUser(t, key, now, Some(Sign(key, id, iat))) == Reply(ServerError, None)
  {
    VerifySign(key, now, id, iat);
  }
}
