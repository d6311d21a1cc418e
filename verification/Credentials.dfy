/** Stored credentials: profile names, the store as a map, and choosing the token to use. */
module Credentials {

  import opened Outcomes
  import opened Trimming

  datatype Credential = Credential(apiToken: string, expiresAt: Option<string>, details: string)

  type Store = map<string, Credential>

  // ----- profile names -----

  const DEFAULT_PROFILE := "default"

  function ProfileName(profile: Option<string>): (name: string)
    ensures name != ""
  {
    if profile.Some? && Trim(profile.value) != "" then Trim(profile.value) else DEFAULT_PROFILE
  }

  /** Naming a profile by its stored name means the same profile. */
  lemma ProfileNamesAreNormal(profile: Option<string>)
    ensures ProfileName(Some(ProfileName(profile))) == ProfileName(profile)
  {
    if profile.Some? {
      TrimIsIdempotent(profile.value);
    }
    assert Trim(DEFAULT_PROFILE) == DEFAULT_PROFILE;
  }

  // ----- what the store's operations mean -----

  datatype Op = Save(profile: Option<string>, credential: Credential) | Delete(profile: Option<string>)
  {
    function Name(): (name: string) { ProfileName(profile) }
  }

  /** The store to write, or none when there is nothing to write. */
  function Effect(op: Op, store: Store): (r: Option<Store>)
  {
    match op
    case Save(_, c) => Some(store[op.Name() := c])
    case Delete(_) => if op.Name() in store then Some(store - {op.Name()}) else None
  }

  function Applied(op: Op, store: Store): (r: Store) {
    var e := Effect(op, store);
    if e.Some? then e.value else store
  }

  function Get(store: Store, name: string): (c: Option<Credential>) {
    if name in store then Some(store[name]) else None
  }

  /** The entry that an operation leaves for its profile. */
  function Left(op: Op): (c: Option<Credential>) {
    match op
    case Save(_, c) => Some(c)
    case Delete(_) => None
  }

  lemma {:induction false} AppliedAt(op: Op, store: Store, name: string)
    ensures Get(Applied(op, store), name)
         == if name != op.Name() then Get(store, name) else Left(op)
  {
  }

  /** Operations on different profiles can change places. */
  lemma {:induction false} OperationsCommute(a: Op, b: Op, store: Store)
    requires a.Name() != b.Name()
    ensures Applied(a, Applied(b, store)) == Applied(b, Applied(a, store))
  {
    var x, y := Applied(a, Applied(b, store)), Applied(b, Applied(a, store));
    forall n ensures Get(x, n) == Get(y, n) {
      AppliedAt(a, Applied(b, store), n);
      AppliedAt(b, store, n);
      AppliedAt(b, Applied(a, store), n);
      AppliedAt(a, store, n);
    }
    SameEntries(x, y);
  }

  /** Of two operations on one profile only the later one counts. */
  lemma {:induction false} LaterOperationAbsorbs(a: Op, b: Op, store: Store)
    requires a.Name() == b.Name()
    ensures Applied(b, Applied(a, store)) == Applied(b, store)
  {
    var x, y := Applied(b, Applied(a, store)), Applied(b, store);
    forall n ensures Get(x, n) == Get(y, n) {
      AppliedAt(b, Applied(a, store), n);
      AppliedAt(b, store, n);
      AppliedAt(a, store, n);
    }
    SameEntries(x, y);
  }

  lemma SameEntries(a: Store, b: Store)
    requires forall n :: Get(a, n) == Get(b, n)
    ensures a == b
  {
    assert forall n :: Get(a, n) == Get(b, n) ==> (n in a <==> n in b) && (n in a ==> a[n] == b[n]);
  }

  function History(store: Store, ops: seq<Op>): (r: Store) {
    if ops == [] then store else Applied(ops[|ops| - 1], History(store, ops[..|ops| - 1]))
  }

  lemma HistoryOneMore(store: Store, ops: seq<Op>, op: Op)
    ensures History(store, ops + [op]) == Applied(op, History(store, ops))
  {
    assert (ops + [op])[..|ops|] == ops;
  }

  /** No operation from `from` on concerns the profile. */
  ghost predicate UntouchedSince(ops: seq<Op>, from: nat, name: string) {
    forall j | from <= j < |ops| :: ops[j].Name() != name
  }

  /** What a profile holds after a history, by its last operation. */
  lemma {:induction false} HistoryAt(store: Store, ops: seq<Op>, name: string)
    requires ops != []
    ensures var n := |ops| - 1;
            Get(History(store, ops), name)
            == if ops[n].Name() != name then Get(History(store, ops[..n]), name) else Left(ops[n])
  {
    var n := |ops| - 1;
    AppliedAt(ops[n], History(store, ops[..n]), name);
  }

  /**
   After any history of logins and logouts a profile holds the credential of its latest login
   if no later logout of the same profile followed, and otherwise nothing.
   */
  lemma {:induction false} LatestOperationWins(store: Store, ops: seq<Op>, i: nat, name: string)
    requires i < |ops| && ops[i].Name() == name && UntouchedSince(ops, i + 1, name)
    ensures Get(History(store, ops), name) == Left(ops[i])
    decreases |ops|
  {
    var n := |ops| - 1;
    HistoryAt(store, ops, name);
    if i < n {
      assert ops[n].Name() != name && ops[..n][i] == ops[i];
      LatestOperationWins(store, ops[..n], i, name);
    }
  }

  lemma {:induction false} UntouchedProfileStays(store: Store, ops: seq<Op>, name: string)
    requires UntouchedSince(ops, 0, name)
    ensures Get(History(store, ops), name) == Get(store, name)
    decreases |ops|
  {
    if ops != [] {
      var n := |ops| - 1;
      assert ops[n].Name() != name;
      HistoryAt(store, ops, name);
      UntouchedProfileStays(store, ops[..n], name);
    }
  }

  // ----- choosing the token -----

  datatype AuthError = Expired | InvalidExpiry | MissingToken

  /** Time stamps as read by the RFC 3339 parser. */
  type Clock = string -> Option<int>

  function NonBlank(s: Option<string>): (r: Option<string>) {
    if s.Some? && Trim(s.value) != "" then Some(Trim(s.value)) else None
  }

  function StoredCredentialsExpired(c: Credential, clock: Clock, now: int): (r: Result<bool, AuthError>) {
    if c.expiresAt.None? then Ok(false)
    else
      match clock(c.expiresAt.value)
      case None => Err(InvalidExpiry)
      case Some(t) => Ok(t <= now)
  }

  /** The stored credential, unless its token is blank. */
  function WithToken(stored: Option<Credential>): (r: Option<Credential>) {
    if stored.Some? && Trim(stored.value.apiToken) != "" then stored else None
  }

  /** Flag before environment before stored credential, blank values not counting. */
  function ResolveApiToken(flag: Option<string>, env: Option<string>, stored: Option<Credential>, clock: Clock,
      now: int)
      : (r: Result<string, AuthError>)
  {
    FirstToken(NonBlank(flag), NonBlank(env), WithToken(stored), clock, now)
  }

  function FirstToken(flag: Option<string>, env: Option<string>, stored: Option<Credential>, clock: Clock, now: int)
      : (r: Result<string, AuthError>)
  {
    if flag.Some? then Ok(flag.value)
    else if env.Some? then Ok(env.value)
    else if stored.Some? then
      match StoredCredentialsExpired(stored.value, clock, now)
      case Err(e) => Err(e)
      case Ok(expired) => if expired then Err(Expired) else Ok(stored.value.apiToken)
    else Err(MissingToken)
  }

  /** A token given explicitly wins over everything, one from the environment over the stored credential. */
  lemma {:induction false} GivenTokenWins(flag: Option<string>, env: Option<string>, stored: Option<Credential>,
      clock: Clock, now: int)
    ensures flag.Some? && Trim(flag.value) != "" ==>
              ResolveApiToken(flag, env, stored, clock, now) == Ok(Trim(flag.value))
    ensures NonBlank(flag).None? && env.Some? && Trim(env.value) != "" ==>
              ResolveApiToken(flag, env, stored, clock, now) == Ok(Trim(env.value))
  {
    var f, e := NonBlank(flag), NonBlank(env);
    assert f.Some? ==> f == Some(Trim(flag.value));
    assert e.Some? ==> e == Some(Trim(env.value));
  }

  /** A credential whose expiry, if it has one, is known and still to come. */
  predicate Current(c: Credential, clock: Clock, now: int) {
    c.expiresAt.None? || (clock(c.expiresAt.value).Some? && now < clock(c.expiresAt.value).value)
  }

  /** Why a credential that is not current is refused: its time stamp cannot be read, or has passed. */
  function ExpiryError(c: Credential, clock: Clock): (e: AuthError) {
    if c.expiresAt.Some? && clock(c.expiresAt.value).None? then InvalidExpiry else Expired
  }

  predicate Usable(c: Credential, clock: Clock, now: int) {
    Trim(c.apiToken) != "" && Current(c, clock, now)
  }

  lemma {:induction false} StoredTokenDecides(stored: Option<Credential>, clock: Clock, now: int)
    ensures var r := FirstToken(None, None, stored, clock, now);
            && (r.Ok? <==> stored.Some? && Current(stored.value, clock, now))
            && (r.Ok? ==> r.value == stored.value.apiToken)
            && (r.Err? ==> r.error == if stored.None? then MissingToken else ExpiryError(stored.value, clock))
  {
  }

  /** With no flag and no environment token, the stored credential decides. */
  lemma {:induction false} StoredCredentialDecides(flag: Option<string>, env: Option<string>, c: Credential,
      clock: Clock, now: int)
    requires NonBlank(flag).None? && NonBlank(env).None?
    ensures var r := ResolveApiToken(flag, env, Some(c), clock, now);
            && (r.Ok? <==> Usable(c, clock, now))
            && (r.Ok? ==> r.value == c.apiToken)
            && (r.Err? ==> r.error == if Trim(c.apiToken) == "" then MissingToken else ExpiryError(c, clock))
  {
    StoredTokenDecides(WithToken(Some(c)), clock, now);
  }

  /**
   With no flag and no environment token, after any history starting from an empty store, the
   token resolved for a profile is that of its last operation exactly when that is a login with a
   usable credential; the name may be given with any surrounding blanks.
   */
  lemma {:induction false} ResolvedTokenIsLatestLogin(
      ops: seq<Op>, i: nat, profile: Option<string>, flag: Option<string>, env: Option<string>, clock: Clock, now: int)
    requires NonBlank(flag).None? && NonBlank(env).None?
    requires i < |ops| && ops[i].Name() == ProfileName(profile) && UntouchedSince(ops, i + 1, ProfileName(profile))
    ensures var r := ResolveApiToken(flag, env, Get(History(map[], ops), ProfileName(profile)), clock, now);
            if ops[i].Save? then
              && (r.Ok? <==> Usable(ops[i].credential, clock, now))
              && (r.Ok? ==> r.value == ops[i].credential.apiToken)
            else r == Err(MissingToken)
  {
    LatestOperationWins(map[], ops, i, ProfileName(profile));
    if ops[i].Save? {
      StoredCredentialDecides(flag, env, ops[i].credential, clock, now);
    }
  }

  lemma {:induction false} NoLoginNoToken(
      ops: seq<Op>, profile: Option<string>, flag: Option<string>, env: Option<string>, clock: Clock, now: int)
    requires NonBlank(flag).None? && NonBlank(env).None? && UntouchedSince(ops, 0, ProfileName(profile))
    ensures ResolveApiToken(flag, env, Get(History(map[], ops), ProfileName(profile)), clock, now) == Err(MissingToken)
  {
    UntouchedProfileStays(map[], ops, ProfileName(profile));
  }
}
