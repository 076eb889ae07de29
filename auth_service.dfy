/** The refresh-token lifecycle of the authentication service: registration,
    login, single-use rotation of refresh tokens, and logout.

    The store keeps only a hash of each refresh secret, with its owner, its
    expiry instant and a revoked flag. The functions `Issue`, `Rotate` and
    `Revoke` specify what one call does to the store; `Run` replays any
    sequence of calls, and the lemmas after it prove the lifecycle properties
    (revocation is permanent, a rotated secret never works again). The class
    `AuthService` is the service object itself, proved to follow them.

    Collaborators are parameters: the hash (SHA-256 then Base64), the access
    token issuer, the password encoder and the credential verifier are
    functions fixed at construction; the fresh random secret and the current
    instant (milliseconds) are arguments. */
module Auth {
  import opened Wrappers

  /** A stored refresh-token hash. */
  type Hash = string

  /** An instant, in milliseconds since the epoch. */
  type Instant = int

  /** Refresh-token lifetime used when none is configured: 14 days. */
  const DEFAULT_REFRESH_TTL_MS: nat := 1209600000

  datatype Role = RoleUser

  datatype User = User(id: nat, username: string, email: string, password: string, roles: set<Role>, enabled: bool)

  /** A stored refresh token, keyed in the store by the hash of its secret. */
  datatype RefreshToken = RefreshToken(user: User, expiry: Instant, revoked: bool)

  type Store = map<Hash, RefreshToken>

  /** The service's exceptions, one per message. */
  datatype AuthError =
    | UsernameExists        // "Username exists"
    | EmailExists           // "Email exists"
    | BadCredentials        // rejected by the credential verifier
    | UserNotFound          // `orElseThrow` after authentication
    | InvalidRefreshToken   // "Invalid refresh token"
    | TokenRevoked          // "Refresh token has been revoked"
    | TokenExpired          // "Refresh token expired"

  /** Access token, raw refresh secret and username handed back to the client. */
  datatype AuthResponse = AuthResponse(accessToken: string, refreshToken: string, username: string)

  // ----------------------------------------------------------------------
  // Users
  // ----------------------------------------------------------------------

  /** `existsByUsername` */
  predicate UsernameTaken(users: seq<User>, name: string) {
    exists u | u in users :: u.username == name
  }

  /** `existsByEmail` */
  predicate EmailTaken(users: seq<User>, email: string) {
    exists u | u in users :: u.email == email
  }

  ghost predicate UniqueUsernames(users: seq<User>) {
    forall i, j | 0 <= i < j < |users| :: users[i].username != users[j].username
  }

  ghost predicate UniqueEmails(users: seq<User>) {
    forall i, j | 0 <= i < j < |users| :: users[i].email != users[j].email
  }

  /** A user repository as the service keeps it: usernames and emails are
      unique, and ids count up from 1. */
  ghost predicate WellFormedUsers(users: seq<User>) {
    && UniqueUsernames(users)
    && UniqueEmails(users)
    && (forall i | 0 <= i < |users| :: users[i].id == i + 1)
  }

  /** `findByUsername`: a user with that name, if there is one. */
  function FindByUsername(users: seq<User>, name: string): (r: Option<User>)
    ensures r.Some? ==> r.value in users && r.value.username == name
    ensures r.None? <==> !UsernameTaken(users, name)
    decreases |users|
  {
    if users == [] then None
    else if users[0].username == name then Some(users[0])
    else FindByUsername(users[1..], name)
  }

  /** With unique usernames, looking a user up by name finds that very user. */
  lemma {:induction false} FindByUsernameFinds(users: seq<User>, i: int)
    requires UniqueUsernames(users) && 0 <= i < |users|
    ensures FindByUsername(users, users[i].username) == Some(users[i])
    decreases |users|
  {
    if i > 0 {
      assert users[0].username != users[i].username;
      assert users[1..][i - 1] == users[i];
      FindByUsernameFinds(users[1..], i - 1);
    }
  }

  // ----------------------------------------------------------------------
  // The token store as a value
  // ----------------------------------------------------------------------

  /** Usable at `now`: not revoked and not past its expiry. An expiry equal
      to `now` still counts (`isBefore` is strict). */
  predicate Active(t: RefreshToken, now: Instant) {
    !t.revoked && !(t.expiry < now)
  }

  /** A record that is usable at some instant was usable at every earlier
      one, and stays usable through its expiry instant itself. */
  lemma ActiveUntilExpiry(t: RefreshToken, now: Instant, earlier: Instant)
    requires Active(t, now) && earlier <= now
    ensures Active(t, earlier) && Active(t, t.expiry)
    ensures !Active(t, t.expiry + 1)
  {
  }

  /** How one call may change the store: every record stays as it is or
      becomes revoked, and only a record that is not revoked may disappear. */
  ghost predicate Evolves(s: Store, s': Store) {
    forall h | h in s ::
      if h in s' then s'[h] == s[h] || s'[h] == s[h].(revoked := true) else !s[h].revoked
  }

  /** Revocation is permanent: a revoked record is still there, unchanged. */
  ghost predicate KeepsRevoked(s: Store, s': Store) {
    forall h | h in s && s[h].revoked :: h in s' && s'[h] == s[h]
  }

  /** `createAndStoreRefreshToken`: stores a new, non-revoked record for
      `user` under the hash `newHash` of a new secret, expiring `ttl` after
      `now`. */
  function Issue(s: Store, user: User, newHash: Hash, now: Instant, ttl: int): (s': Store)
    requires newHash !in s
    ensures s'.Keys == s.Keys + {newHash} && |s'| == |s| + 1
    ensures s'[newHash] == RefreshToken(user, now + ttl, false)
    ensures forall t: Instant :: Active(s'[newHash], t) <==> t <= now + ttl
    ensures forall h | h in s :: s'[h] == s[h]
    ensures Evolves(s, s')
  {
    s[newHash := RefreshToken(user, now + ttl, false)]
  }

  /** What one call to `refreshAccessToken` decides, and the store it leaves. */
  datatype Transition = Transition(outcome: Result<User, AuthError>, store: Store)

  /** `refreshAccessToken` on the secret hashing to `h`, with `newHash` the hash
      of the replacement secret: unknown, then revoked, then expired (which
      deletes the record) are refused in that order; otherwise the record is
      revoked and a replacement is issued to the same user. */
  function Rotate(s: Store, h: Hash, newHash: Hash, now: Instant, ttl: int): (t: Transition)
    requires newHash !in s
    ensures t.outcome == Failure(InvalidRefreshToken) <==> h !in s
    ensures t.outcome == Failure(TokenRevoked) <==> h in s && s[h].revoked
    ensures t.outcome == Failure(TokenExpired) <==> h in s && !s[h].revoked && s[h].expiry < now
    ensures t.outcome.Success? <==> h in s && Active(s[h], now)
    ensures t.outcome.Failure? && t.outcome.error != TokenExpired ==> t.store == s
    ensures t.outcome == Failure(TokenExpired) ==> t.store == s - {h}
    ensures t.outcome.Success? ==>
      && t.outcome.value == s[h].user
      && t.store.Keys == s.Keys + {newHash}
      && t.store[h] == s[h].(revoked := true)
      && t.store[newHash] == RefreshToken(s[h].user, now + ttl, false)
      && (forall k | k in s && k != h :: t.store[k] == s[k])
    ensures Evolves(s, t.store)
  {
    if h !in s then Transition(Failure(InvalidRefreshToken), s)
    else if s[h].revoked then Transition(Failure(TokenRevoked), s)
    else if s[h].expiry < now then Transition(Failure(TokenExpired), s - {h})
    else
      var user := s[h].user;
      Transition(Success(user), Issue(s[h := s[h].(revoked := true)], user, newHash, now, ttl))
  }

  /** `logout` on the secret hashing to `h`: revokes its record if there is
      one, and is silent otherwise. */
  function Revoke(s: Store, h: Hash): (s': Store)
    ensures h !in s ==> s' == s
    ensures s'.Keys == s.Keys
    ensures h in s ==> s'[h] == s[h].(revoked := true)
    ensures forall k | k in s && k != h :: s'[k] == s[k]
    ensures Evolves(s, s')
  {
    if h in s then s[h := s[h].(revoked := true)] else s
  }

  /** Logging out twice is logging out once. */
  lemma LogoutIdempotent(s: Store, h: Hash)
    ensures Revoke(Revoke(s, h), h) == Revoke(s, h)
  {
  }

  /** A secret just issued can be exchanged once, up to and including its
      expiry instant, and is refused as expired after it. */
  lemma IssuedTokenRedeemable(s: Store, user: User, newHash: Hash, now: Instant, ttl: int, nextHash: Hash, later: Instant)
    requires newHash !in s && nextHash !in Issue(s, user, newHash, now, ttl)
    ensures var t := Rotate(Issue(s, user, newHash, now, ttl), newHash, nextHash, later, ttl);
      && (later <= now + ttl ==> t.outcome == Success(user))
      && (later > now + ttl ==> t.outcome == Failure(TokenExpired))
  {
  }

  // ----------------------------------------------------------------------
  // Any sequence of calls
  // ----------------------------------------------------------------------

  /** A call that reaches the token store: a successful login issuing a
      secret, a refresh, or a logout. Secrets appear as their hashes. */
  datatype Op =
    | LoginOp(user: User, newHash: Hash, now: Instant)
    | RefreshOp(token: Hash, newHash: Hash, now: Instant)
    | LogoutOp(token: Hash)

  /** A newly generated secret never hashes to a stored one. */
  predicate Enabled(s: Store, op: Op) {
    match op
    case LoginOp(_, newHash, _) => newHash !in s
    case RefreshOp(_, newHash, _) => newHash !in s
    case LogoutOp(_) => true
  }

  function Apply(s: Store, op: Op, ttl: int): (s': Store)
    requires Enabled(s, op)
    ensures Evolves(s, s') && KeepsRevoked(s, s')
  {
    match op
    case LoginOp(user, newHash, now) => Issue(s, user, newHash, now, ttl)
    case RefreshOp(token, newHash, now) => Rotate(s, token, newHash, now, ttl).store
    case LogoutOp(token) => Revoke(s, token)
  }

  /** Every call in the sequence is enabled in the store it meets. */
  predicate Feasible(s: Store, ops: seq<Op>, ttl: int)
    decreases |ops|
  {
    ops == [] || (Enabled(s, ops[0]) && Feasible(Apply(s, ops[0], ttl), ops[1..], ttl))
  }

  function Run(s: Store, ops: seq<Op>, ttl: int): Store
    requires Feasible(s, ops, ttl)
    decreases |ops|
  {
    if ops == [] then s else Run(Apply(s, ops[0], ttl), ops[1..], ttl)
  }

  /** No sequence of calls un-revokes, alters or deletes a revoked record. */
  lemma {:induction false} RunKeepsRevoked(s: Store, ops: seq<Op>, ttl: int)
    requires Feasible(s, ops, ttl)
    ensures KeepsRevoked(s, Run(s, ops, ttl))
    decreases |ops|
  {
    if ops != [] {
      var s1 := Apply(s, ops[0], ttl);
      RunKeepsRevoked(s1, ops[1..], ttl);
    }
  }

  /** Single use: once a secret has been exchanged, every later attempt to
      exchange it, whatever happened in between, is refused as revoked. */
  lemma SingleUse(s: Store, h: Hash, newHash: Hash, now: Instant, ttl: int,
                  between: seq<Op>, nextHash: Hash, later: Instant)
    requires newHash !in s && Rotate(s, h, newHash, now, ttl).outcome.Success?
    requires Feasible(Rotate(s, h, newHash, now, ttl).store, between, ttl)
    requires nextHash !in Run(Rotate(s, h, newHash, now, ttl).store, between, ttl)
    ensures Rotate(Run(Rotate(s, h, newHash, now, ttl).store, between, ttl), h, nextHash, later, ttl).outcome
         == Failure(TokenRevoked)
  {
    var s1 := Rotate(s, h, newHash, now, ttl).store;
    RunKeepsRevoked(s1, between, ttl);
  }

  // ----------------------------------------------------------------------
  // The service object
  // ----------------------------------------------------------------------

  class AuthService {
    /** SHA-256 of the UTF-8 bytes, Base64-encoded. */
    const hash: string -> Hash
    /** The signed access token for a username and user id. */
    const accessToken: (string, nat) -> string
    /** The password encoder. */
    const encode: string -> string
    /** The credential verifier: accepts or rejects a username and password. */
    const authenticate: (string, string) -> bool
    /** Refresh-token lifetime in milliseconds. */
    const refreshTtl: int

    /** The user repository, in insertion order. */
    var users: seq<User>
    /** The refresh-token repository, looked up by hash only. */
    var tokens: Store

    ghost predicate Valid()
      reads this
    {
      WellFormedUsers(users)
    }

    /** The response to a successful login or refresh of `user` with the new
        raw secret `raw`. */
    function Response(user: User, raw: string): AuthResponse {
      AuthResponse(accessToken(user.username, user.id), raw, user.username)
    }

    /** The service over repositories that may already hold users and
        tokens. */
    constructor (hash: string -> Hash, accessToken: (string, nat) -> string, encode: string -> string,
                 authenticate: (string, string) -> bool, refreshTtl: int,
                 users0: seq<User>, tokens0: Store)
      requires WellFormedUsers(users0)
      ensures Valid() && users == users0 && tokens == tokens0
      ensures this.hash == hash && this.accessToken == accessToken && this.encode == encode
      ensures this.authenticate == authenticate && this.refreshTtl == refreshTtl
    {
      this.hash := hash;
      this.accessToken := accessToken;
      this.encode := encode;
      this.authenticate := authenticate;
      this.refreshTtl := refreshTtl;
      users := users0;
      tokens := tokens0;
    }

    /** `register`: refuses a taken username, then a taken email; otherwise
        saves an enabled user with the encoded password and ROLE_USER. */
    method Register(username: string, email: string, rawPassword: string) returns (r: Result<User, AuthError>)
      requires Valid()
      modifies this
      ensures Valid() && tokens == old(tokens)
      ensures r == Failure(UsernameExists) <==> UsernameTaken(old(users), username)
      ensures r == Failure(EmailExists) <==> !UsernameTaken(old(users), username) && EmailTaken(old(users), email)
      ensures r.Success? <==> !UsernameTaken(old(users), username) && !EmailTaken(old(users), email)
      ensures r.Failure? ==> users == old(users)
      ensures r.Success? ==>
        && r.value == User(|old(users)| + 1, username, email, encode(rawPassword), {RoleUser}, true)
        && users == old(users) + [r.value]
    {
      if UsernameTaken(users, username) {
        return Failure(UsernameExists);
      }
      if EmailTaken(users, email) {
        return Failure(EmailExists);
      }
      var user := User(|users| + 1, username, email, encode(rawPassword), {RoleUser}, true);
      assert forall i | 0 <= i < |users| :: users[i] in users;
      users := users + [user];
      r := Success(user);
    }

    /** `createAndStoreRefreshToken`: stores the hash of the new secret and
        returns the secret itself, so hashing the result finds the record. */
    method CreateAndStoreRefreshToken(user: User, secret: string, now: Instant) returns (raw: string)
      requires hash(secret) !in tokens
      modifies this
      ensures raw == secret && users == old(users)
      ensures tokens == Issue(old(tokens), user, hash(raw), now, refreshTtl)
      ensures hash(raw) in tokens && tokens[hash(raw)] == RefreshToken(user, now + refreshTtl, false)
    {
      raw := secret;
      var hashed := hash(raw);
      var rt := RefreshToken(user, now + refreshTtl, false);
      tokens := tokens[hashed := rt];
    }

    /** `login`: after the verifier accepts the credentials, issues an access
        token and a refresh secret for the user of that name. */
    method Login(username: string, password: string, secret: string, now: Instant) returns (r: Result<AuthResponse, AuthError>)
      requires hash(secret) !in tokens
      modifies this
      ensures users == old(users)
      ensures !authenticate(username, password) ==> r == Failure(BadCredentials) && tokens == old(tokens)
      ensures authenticate(username, password) ==>
        match FindByUsername(users, username)
        case None => r == Failure(UserNotFound) && tokens == old(tokens)
        case Some(u) =>
          && r == Success(Response(u, secret))
          && tokens == Issue(old(tokens), u, hash(secret), now, refreshTtl)
    {
      if !authenticate(username, password) {
        return Failure(BadCredentials);
      }
      var found := FindByUsername(users, username);
      if found.None? {
        return Failure(UserNotFound);
      }
      var user := found.value;
      var access := accessToken(user.username, user.id);
      var refresh := CreateAndStoreRefreshToken(user, secret, now);
      r := Success(AuthResponse(access, refresh, user.username));
    }

    /** `refreshAccessToken`: exchanges a refresh secret for a new access
        token and a new refresh secret, as `Rotate` specifies. */
    method RefreshAccessToken(rawRefreshToken: string, secret: string, now: Instant) returns (r: Result<AuthResponse, AuthError>)
      requires hash(secret) !in tokens
      modifies this
      ensures users == old(users)
      ensures var t := Rotate(old(tokens), hash(rawRefreshToken), hash(secret), now, refreshTtl);
        && tokens == t.store
        && (t.outcome.Success? ==> r == Success(Response(t.outcome.value, secret)))
        && (t.outcome.Failure? ==> r == Failure(t.outcome.error))
    {
      var hashed := hash(rawRefreshToken);
      if hashed !in tokens {
        return Failure(InvalidRefreshToken);
      }
      var stored := tokens[hashed];
      if stored.revoked {
        return Failure(TokenRevoked);
      }
      if stored.expiry < now {
        tokens := tokens - {hashed};
        return Failure(TokenExpired);
      }
      var user := stored.user;
      tokens := tokens[hashed := stored.(revoked := true)];
      var newRawRefreshToken := CreateAndStoreRefreshToken(user, secret, now);
      var newAccessToken := accessToken(user.username, user.id);
      r := Success(AuthResponse(newAccessToken, newRawRefreshToken, user.username));
    }

    /** `logout`: revokes the record of a known secret; an unknown secret
        changes nothing and raises nothing. */
    method Logout(rawRefreshToken: string)
      modifies this
      ensures users == old(users)
      ensures tokens == Revoke(old(tokens), hash(rawRefreshToken))
    {
      var hashed := hash(rawRefreshToken);
      if hashed in tokens {
        var token := tokens[hashed];
        tokens := tokens[hashed := token.(revoked := true)];
      }
    }
  }
}
