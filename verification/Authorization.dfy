/**
 The grant store of src/anywhere_computer/authorization.py.

 The tables are maps from primary key to row. Secrets and grant ids are drawn from one
 counter, so a freshly generated value differs from every stored one, and a row is keyed
 by the secret itself because its digest is injective. `Apply` is the transition that one
 committed transaction performs; class `AuthorizationStore` performs the same work by
 updating its tables step by step and undoing them where the transaction rolls back.
 */
module Authorization {
  import opened Outcomes

  type Secret = nat
  type GrantId = nat
  type Challenge = nat

  const LOCAL_ONLY_TOOLS: set<string> := {"operations_recent"}
  const CODE_SECONDS := 120.0
  const TOKEN_SECONDS := 900

  /** A callback URL: malformed, an http loopback address split at its port, or any other. */
  datatype Redirect =
    | Malformed
    | Exact(url: string)
    | Loopback(host: string, port: Option<nat>, rest: string)

  /** A PKCE verifier; well-formed ones have distinct S256 challenges. */
  datatype Verifier = IllFormed | Verifier(challenge: Challenge)

  datatype Device = Device(owner: string, tools: set<string>, active: bool, generation: nat, resetPending: bool)
  datatype Grant = Grant(owner: string, device: string, client: string, tools: set<string>, expires: real,
                         revoked: bool)
  datatype Code = Code(grant: GrantId, redirect: Redirect, challenge: Challenge, expires: real, consumed: bool)
  datatype Token = Token(grant: GrantId, expires: real)
  datatype RefreshToken = RefreshToken(grant: GrantId, expires: real, consumed: bool)

  datatype Store = Store(
    resource: string,
    knownTools: set<string>,
    clients: map<string, set<Redirect>>,
    devices: map<string, Device>,
    grants: map<GrantId, Grant>,
    codes: map<Secret, Code>,
    tokens: map<Secret, Token>,
    refreshTokens: map<Secret, RefreshToken>,
    nextSecret: nat)

  datatype Consent = Consent(
    owner: string, device: string, client: string, redirect: Redirect, resource: string,
    tools: set<string>, challenge: Option<Challenge>, generation: Option<nat>)

  datatype GrantIdentity = GrantIdentity(
    grant: GrantId, owner: string, device: string, client: string, resource: string, tools: set<string>)

  datatype AccessToken = AccessToken(access: Secret, expiresIn: int, scope: set<string>, refresh: Secret)

  datatype Failure = InvalidRequest | AccessDenied | InvalidGrant | InvalidScope | BadValue | Duplicate

  datatype Reply =
    | Done
    | Changed(changed: bool)
    | Retained(count: nat)
    | CodeIssued(code: Secret)
    | Issued(token: AccessToken)
    | Failed(failure: Failure)

  datatype Command =
    | RegisterClient(client: string, redirects: set<Redirect>)
    | EnrollDevice(owner: string, device: string, tools: set<string>)
    | Approve(consent: Consent, now: real)
    | ExchangeCode(code: Secret, verifier: Verifier, client: string, redirect: Redirect, resource: string, now: real)
    | Refresh(refresh: Secret, client: string, resource: string, scope: Option<set<string>>, now: real)
    | RetainActiveGrants(owner: string, device: string, client: string, now: real)
    | Revoke(owner: string, grant: GrantId)
    | RevokeDevice(owner: string, device: string)
    | BeginOwnerReset(owner: string, device: string)
    | CompleteOwnerReset(owner: string, device: string)
    | EnableDevice(owner: string, device: string)
    | Reopen(knownTools: set<string>)

  // ----- checks that read the store

  predicate Identifier(value: string) {
    0 < |value| <= 128 && forall i :: 0 <= i < |value| ==> 33 as char <= value[i] <= 126 as char
  }

  predicate ToolsKnown(s: Store, tools: set<string>) {
    tools != {} && tools <= s.knownTools
  }

  /** RFC 8252 section 7.3: a loopback callback may differ from a registered one in its port only. */
  predicate Registered(redirect: Redirect, registered: set<Redirect>) {
    || redirect in registered
    || (&& redirect.Loopback?
        && redirect.port.Some?
        && 1 <= redirect.port.value <= 65535
        && exists saved <- registered :: saved.Loopback? && saved.host == redirect.host && saved.rest == redirect.rest)
  }

  function ValidateConsent(s: Store, c: Consent): Result<nat, Failure> {
    if c.resource != s.resource || c.challenge.None? then Err(InvalidRequest)
    else if !ToolsKnown(s, c.tools) then Err(BadValue)
    else if c.client !in s.clients then Err(AccessDenied)
    else if c.redirect.Malformed? then Err(BadValue)
    else if !Registered(c.redirect, s.clients[c.client]) || c.device !in s.devices then Err(AccessDenied)
    else
      var d := s.devices[c.device];
      if d.owner != c.owner || !d.active || !(c.tools <= d.tools)
         || (c.generation.Some? && c.generation.value != d.generation) then Err(AccessDenied)
      else Ok(d.generation)
  }

  function DeviceOf(s: Store, owner: string, device: string): Option<Device> {
    if device in s.devices && s.devices[device].owner == owner then Some(s.devices[device]) else None
  }

  /** The grant as usable now, or None: the joined row, its deadline, its device and its tools must hold. */
  function CurrentGrant(s: Store, g: GrantId, now: real): Option<GrantIdentity> {
    if g !in s.grants || s.grants[g].device !in s.devices then None
    else
      var row, d := s.grants[g], s.devices[s.grants[g].device];
      if (row.expires != 0.0 && row.expires <= now) || row.revoked || !d.active || row.owner != d.owner then None
      else if !(row.tools <= d.tools) || !(row.tools <= s.knownTools) then None
      else Some(GrantIdentity(g, row.owner, row.device, row.client, s.resource, row.tools))
  }

  /** The same lookup as done by an engine worker on a read-only connection. */
  function CurrentGrantReadOnly(s: Store, g: GrantId, now: real): Option<GrantIdentity> {
    if g !in s.grants || s.grants[g].device !in s.devices then None
    else
      var row, d := s.grants[g], s.devices[s.grants[g].device];
      if row.revoked || !d.active || row.owner != d.owner || (row.expires != 0.0 && row.expires <= now) then None
      else if !(row.tools <= d.tools) then None
      else Some(GrantIdentity(g, row.owner, row.device, row.client, s.resource, row.tools))
  }

  function Verify(s: Store, token: Secret, resource: string, now: real): Option<GrantIdentity> {
    if resource != s.resource || token !in s.tokens || s.tokens[token].expires <= now then None
    else CurrentGrant(s, s.tokens[token].grant, now)
  }

  // ----- transitions

  function RevokeWhere(grants: map<GrantId, Grant>, device: string): map<GrantId, Grant> {
    map g | g in grants :: if grants[g].device == device then grants[g].(revoked := true) else grants[g]
  }

  function RevokeGrant(s: Store, g: GrantId): Store
    requires g in s.grants
  {
    s.(grants := s.grants[g := s.grants[g].(revoked := true)])
  }

  function SetDevice(s: Store, device: string, d: Device): Store {
    s.(devices := s.devices[device := d])
  }

  function ApplyApprove(s: Store, c: Consent, now: real): (Store, Reply) {
    match ValidateConsent(s, c)
    case Err(e) => (s, Failed(e))
    case Ok(_) =>
      var code, g := s.nextSecret, s.nextSecret + 1;
      (s.(grants := s.grants[g := Grant(c.owner, c.device, c.client, c.tools, 0.0, false)],
          codes := s.codes[code := Code(g, c.redirect, c.challenge.value, now + CODE_SECONDS, false)],
          nextSecret := s.nextSecret + 2),
       CodeIssued(code))
  }

  function Lifetime(grantExpires: real, now: real): int {
    if grantExpires == 0.0 then TOKEN_SECONDS
    else if (grantExpires - now).Floor < TOKEN_SECONDS then (grantExpires - now).Floor
    else TOKEN_SECONDS
  }

  /** The pair inserted by a redemption, or None when the grant has less than a second left. */
  function IssueTokens(s: Store, g: GrantId, tools: set<string>, grantExpires: real, now: real)
    : Option<(Store, AccessToken)>
  {
    var lifetime := Lifetime(grantExpires, now);
    if lifetime < 1 then None
    else
      var access, refresh := s.nextSecret, s.nextSecret + 1;
      Some((s.(tokens := s.tokens[access := Token(g, now + lifetime as real)],
               refreshTokens := s.refreshTokens[refresh := RefreshToken(g, grantExpires, false)],
               nextSecret := s.nextSecret + 2),
            AccessToken(access, lifetime, tools, refresh)))
  }

  /** The presented code's row when every presented value matches it. */
  predicate CodeMatches(s: Store, code: Secret, verifier: Verifier, client: string, redirect: Redirect,
                        resource: string)
  {
    && resource == s.resource
    && verifier.Verifier?
    && code in s.codes
    && s.codes[code].grant in s.grants
    && s.codes[code].redirect == redirect
    && s.grants[s.codes[code].grant].client == client
    && s.codes[code].challenge == verifier.challenge
  }

  function ApplyExchange(s: Store, code: Secret, verifier: Verifier, client: string, redirect: Redirect,
                         resource: string, now: real): (Store, Reply)
  {
    if !CodeMatches(s, code, verifier, client, redirect, resource) then (s, Failed(InvalidGrant))
    else
      var row := s.codes[code];
      if row.consumed then (RevokeGrant(s, row.grant), Failed(InvalidGrant))
      else if row.expires <= now || CurrentGrant(s, row.grant, now).None? then (s, Failed(InvalidGrant))
      else
        var grant := s.grants[row.grant];
        match IssueTokens(s.(codes := s.codes[code := row.(consumed := true)]), row.grant, grant.tools,
                          grant.expires, now)
        case None => (s, Failed(InvalidGrant))
        case Some(issued) => (issued.0, Issued(issued.1))
  }

  predicate RefreshMatches(s: Store, refresh: Secret, client: string, resource: string) {
    && resource == s.resource
    && refresh in s.refreshTokens
    && s.refreshTokens[refresh].grant in s.grants
    && s.grants[s.refreshTokens[refresh].grant].client == client
  }

  function ApplyRefresh(s: Store, refresh: Secret, client: string, resource: string,
                        scope: Option<set<string>>, now: real): (Store, Reply)
  {
    if !RefreshMatches(s, refresh, client, resource) then (s, Failed(InvalidGrant))
    else
      var row := s.refreshTokens[refresh];
      if row.consumed then (RevokeGrant(s, row.grant), Failed(InvalidGrant))
      else
        var current := CurrentGrant(s, row.grant, now);
        if (row.expires != 0.0 && row.expires <= now) || current.None? then (s, Failed(InvalidGrant))
        else if scope.Some? && scope.value != current.value.tools then (s, Failed(InvalidScope))
        else
          match IssueTokens(s.(refreshTokens := s.refreshTokens[refresh := row.(consumed := true)]),
                            row.grant, current.value.tools, s.grants[row.grant].expires, now)
          case None => (s, Failed(InvalidGrant))
          case Some(issued) => (issued.0, Issued(issued.1))
  }

  function Candidates(s: Store, owner: string, device: string, client: string, now: real): set<GrantId> {
    set g | && g in s.grants
            && s.grants[g].owner == owner && s.grants[g].device == device && s.grants[g].client == client
            && s.grants[g].expires > now && !s.grants[g].revoked
  }

  function Usable(s: Store, among: set<GrantId>, now: real): set<GrantId> {
    set g | g in among && CurrentGrant(s, g, now).Some?
  }

  /** The time-limited grants that administration may free of their deadline. */
  function Retainable(s: Store, owner: string, device: string, client: string, now: real): set<GrantId> {
    Usable(s, Candidates(s, owner, device, client, now), now)
  }

  function FreeGrants(grants: map<GrantId, Grant>, freed: set<GrantId>): map<GrantId, Grant> {
    map g | g in grants :: if g in freed then grants[g].(expires := 0.0) else grants[g]
  }

  function FreeRefreshTokens(rows: map<Secret, RefreshToken>, freed: set<GrantId>, now: real)
    : map<Secret, RefreshToken>
  {
    map r | r in rows ::
      if rows[r].grant in freed && !rows[r].consumed && rows[r].expires > now
      then rows[r].(expires := 0.0) else rows[r]
  }

  function Freed(s: Store, freed: set<GrantId>, now: real): Store {
    s.(grants := FreeGrants(s.grants, freed), refreshTokens := FreeRefreshTokens(s.refreshTokens, freed, now))
  }

  lemma FreeingOthersKeepsGrant(s: Store, freed: set<GrantId>, g: GrantId, now: real)
    requires g !in freed
    ensures CurrentGrant(Freed(s, freed, now), g, now) == CurrentGrant(s, g, now)
  {
  }

  lemma FreeOneGrant(grants: map<GrantId, Grant>, freed: set<GrantId>, g: GrantId)
    requires g in grants
    ensures var some := FreeGrants(grants, freed);
            g in some && FreeGrants(grants, freed + {g}) == some[g := some[g].(expires := 0.0)]
  {
  }

  /** The live refresh tokens of one grant without their deadline. */
  function FreeFamily(rows: map<Secret, RefreshToken>, g: GrantId, now: real): map<Secret, RefreshToken> {
    map r | r in rows ::
      if rows[r].grant == g && !rows[r].consumed && rows[r].expires > now then rows[r].(expires := 0.0) else rows[r]
  }

  lemma FreeOneFamily(rows: map<Secret, RefreshToken>, freed: set<GrantId>, g: GrantId, now: real)
    ensures var some := FreeRefreshTokens(rows, freed, now);
            FreeRefreshTokens(rows, freed + {g}, now) == FreeFamily(some, g, now)
  {
  }

  lemma UsableStep(s: Store, all: set<GrantId>, rest: set<GrantId>, g: GrantId, now: real)
    requires g in all && g !in rest
    ensures Usable(s, all - rest, now)
            == Usable(s, all - (rest + {g}), now) + if CurrentGrant(s, g, now).Some? then {g} else {}
  {
  }

  function ApplyRetain(s: Store, owner: string, device: string, client: string, now: real): (Store, Reply) {
    var d := DeviceOf(s, owner, device);
    if d.None? || !d.value.active then (s, Failed(AccessDenied))
    else
      var freed := Retainable(s, owner, device, client, now);
      (Freed(s, freed, now), Retained(|freed|))
  }

  function ApplyRegister(s: Store, client: string, redirects: set<Redirect>): (Store, Reply) {
    if !Identifier(client) || !(1 <= |redirects| <= 10) || Malformed in redirects then (s, Failed(BadValue))
    else if client in s.clients then (s, Failed(Duplicate))
    else (s.(clients := s.clients[client := redirects]), Done)
  }

  function ApplyEnroll(s: Store, owner: string, device: string, tools: set<string>): (Store, Reply) {
    if !Identifier(owner) || !Identifier(device) || !ToolsKnown(s, tools) then (s, Failed(BadValue))
    else if device in s.devices then (s, Failed(Duplicate))
    else (SetDevice(s, device, Device(owner, tools, true, 0, false)), Done)
  }

  function ApplyRevoke(s: Store, owner: string, g: GrantId): (Store, Reply) {
    if g !in s.grants || s.grants[g].owner != owner then (s, Failed(AccessDenied))
    else (RevokeGrant(s, g), Done)
  }

  /** Replaces a device row and revokes every grant on that device. */
  function ReplaceDevice(s: Store, device: string, d: Device): Store {
    SetDevice(s, device, d).(grants := RevokeWhere(s.grants, device))
  }

  function ApplyRevokeDevice(s: Store, owner: string, device: string): (Store, Reply) {
    match DeviceOf(s, owner, device)
    case None => (s, Failed(AccessDenied))
    case Some(d) => (ReplaceDevice(s, device, d.(active := false, generation := d.generation + 1)), Done)
  }

  function ApplyBeginReset(s: Store, owner: string, device: string): (Store, Reply) {
    match DeviceOf(s, owner, device)
    case None => (s, Failed(AccessDenied))
    case Some(d) =>
      (ReplaceDevice(s, device, d.(active := false, resetPending := true, generation := d.generation + 1)), Done)
  }

  function ApplyCompleteReset(s: Store, owner: string, device: string): (Store, Reply) {
    match DeviceOf(s, owner, device)
    case None => (s, Failed(AccessDenied))
    case Some(d) =>
      if d.active || !d.resetPending then (s, Failed(AccessDenied))
      else (SetDevice(s, device, d.(resetPending := false)), Done)
  }

  function ApplyEnable(s: Store, owner: string, device: string): (Store, Reply) {
    match DeviceOf(s, owner, device)
    case None => (s, Failed(AccessDenied))
    case Some(d) =>
      if d.resetPending then (s, Failed(BadValue))
      else if d.active then (s, Changed(false))
      else (ReplaceDevice(s, device, d.(active := true, generation := d.generation + 1)), Changed(true))
  }

  /** The same database opened by a program that knows other tools. */
  function Reopened(s: Store, knownTools: set<string>): Store {
    s.(knownTools := knownTools - LOCAL_ONLY_TOOLS)
  }

  function Apply(s: Store, c: Command): (Store, Reply) {
    match c
    case RegisterClient(client, redirects) => ApplyRegister(s, client, redirects)
    case EnrollDevice(owner, device, tools) => ApplyEnroll(s, owner, device, tools)
    case Approve(consent, now) => ApplyApprove(s, consent, now)
    case ExchangeCode(code, verifier, client, redirect, resource, now) =>
      ApplyExchange(s, code, verifier, client, redirect, resource, now)
    case Refresh(refresh, client, resource, scope, now) => ApplyRefresh(s, refresh, client, resource, scope, now)
    case RetainActiveGrants(owner, device, client, now) => ApplyRetain(s, owner, device, client, now)
    case Revoke(owner, g) => ApplyRevoke(s, owner, g)
    case RevokeDevice(owner, device) => ApplyRevokeDevice(s, owner, device)
    case BeginOwnerReset(owner, device) => ApplyBeginReset(s, owner, device)
    case CompleteOwnerReset(owner, device) => ApplyCompleteReset(s, owner, device)
    case EnableDevice(owner, device) => ApplyEnable(s, owner, device)
    case Reopen(knownTools) => (Reopened(s, knownTools), Done)
  }

  /** The store after a sequence of transactions. */
  function Run(s: Store, commands: seq<Command>): Store
    decreases |commands|
  {
    if commands == [] then s else Run(Apply(s, commands[0]).0, commands[1..])
  }

  function Empty(resource: string, knownTools: set<string>): Store {
    Store(resource, knownTools - LOCAL_ONLY_TOOLS, map[], map[], map[], map[], map[], map[], 0)
  }

  // ----- the store as an object whose methods update tables inside transactions

  class AuthorizationStore {
    const resource: string
    const knownTools: set<string>
    var clients: map<string, set<Redirect>>
    var devices: map<string, Device>
    var grants: map<GrantId, Grant>
    var codes: map<Secret, Code>
    var tokens: map<Secret, Token>
    var refreshTokens: map<Secret, RefreshToken>
    var nextSecret: nat

    function State(): Store
      reads this
    {
      Store(resource, knownTools, clients, devices, grants, codes, tokens, refreshTokens, nextSecret)
    }

    constructor (resource: string, knownTools: set<string>)
      ensures State() == Empty(resource, knownTools)
    {
      this.resource, this.knownTools := resource, knownTools - LOCAL_ONLY_TOOLS;
      clients, devices, grants, codes, tokens, refreshTokens := map[], map[], map[], map[], map[], map[];
      nextSecret := 0;
    }

    /** Opens an existing database, unless it belongs to another resource. */
    static method Open(saved: Store, resource: string, knownTools: set<string>)
      returns (found: Option<AuthorizationStore>)
      ensures found.None? <==> saved.resource != resource
      ensures found.Some? ==> fresh(found.value) && Apply(saved, Reopen(knownTools)) == (found.value.State(), Done)
    {
      if saved.resource != resource { return None; }
      var store := new AuthorizationStore(resource, knownTools);
      store.clients, store.devices, store.grants := saved.clients, saved.devices, saved.grants;
      store.codes, store.tokens, store.refreshTokens := saved.codes, saved.tokens, saved.refreshTokens;
      store.nextSecret := saved.nextSecret;
      found := Some(store);
    }

    method NewSecret() returns (secret: Secret)
      modifies this`nextSecret
      ensures secret == old(nextSecret) && nextSecret == old(nextSecret) + 1
    {
      secret := nextSecret;
      nextSecret := nextSecret + 1;
    }

    method RegisterClient(client: string, redirects: set<Redirect>) returns (reply: Reply)
      modifies this
      ensures Apply(old(State()), Command.RegisterClient(client, redirects)) == (State(), reply)
    {
      if !Identifier(client) { return Failed(BadValue); }
      if redirects == {} || |redirects| > 10 || Malformed in redirects { return Failed(BadValue); }
      if client in clients { return Failed(Duplicate); }
      clients := clients[client := redirects];
      reply := Done;
    }

    method EnrollDevice(owner: string, device: string, tools: set<string>) returns (reply: Reply)
      modifies this
      ensures Apply(old(State()), Command.EnrollDevice(owner, device, tools)) == (State(), reply)
    {
      if !Identifier(owner) || !Identifier(device) || !ToolsKnown(State(), tools) { return Failed(BadValue); }
      if device in devices { return Failed(Duplicate); }
      devices := devices[device := Device(owner, tools, true, 0, false)];
      reply := Done;
    }

    method Approve(c: Consent, now: real) returns (reply: Reply)
      modifies this
      ensures Apply(old(State()), Command.Approve(c, now)) == (State(), reply)
    {
      if c.resource != resource || c.challenge.None? { return Failed(InvalidRequest); }
      if !ToolsKnown(State(), c.tools) { return Failed(BadValue); }
      var checked := ValidateConsent(State(), c);
      if checked.Err? { return Failed(checked.error); }
      var code := NewSecret();
      var grant := NewSecret();
      grants := grants[grant := Grant(c.owner, c.device, c.client, c.tools, 0.0, false)];
      codes := codes[code := Code(grant, c.redirect, c.challenge.value, now + CODE_SECONDS, false)];
      reply := CodeIssued(code);
    }

    /** Inserts the new pair; called only inside a redemption, which rolls back on None. */
    method InsertTokens(g: GrantId, tools: set<string>, grantExpires: real, now: real)
      returns (issued: Option<AccessToken>)
      modifies this
      ensures match IssueTokens(old(State()), g, tools, grantExpires, now)
              case None => issued == None && State() == old(State())
              case Some(pair) => issued == Some(pair.1) && State() == pair.0
    {
      var lifetime := TOKEN_SECONDS;
      if grantExpires != 0.0 && (grantExpires - now).Floor < lifetime {
        lifetime := (grantExpires - now).Floor;
      }
      if lifetime < 1 { return None; }
      var access := NewSecret();
      var refresh := NewSecret();
      tokens := tokens[access := Token(g, now + lifetime as real)];
      refreshTokens := refreshTokens[refresh := RefreshToken(g, grantExpires, false)];
      issued := Some(AccessToken(access, lifetime, tools, refresh));
    }

    method ExchangeCode(code: Secret, verifier: Verifier, client: string, redirect: Redirect, resource: string,
                        now: real)
      returns (reply: Reply)
      modifies this
      ensures Apply(old(State()), Command.ExchangeCode(code, verifier, client, redirect, resource, now))
              == (State(), reply)
    {
      if resource != this.resource || verifier.IllFormed? { return Failed(InvalidGrant); }
      if !CodeMatches(State(), code, verifier, client, redirect, resource) { return Failed(InvalidGrant); }
      var row := codes[code];
      var grant := grants[row.grant];
      if row.consumed {
        grants := grants[row.grant := grant.(revoked := true)];
        return Failed(InvalidGrant);
      }
      if row.expires <= now || CurrentGrant(State(), row.grant, now).None? { return Failed(InvalidGrant); }
      var before := codes;
      codes := codes[code := row.(consumed := true)];
      var issued := InsertTokens(row.grant, grant.tools, grant.expires, now);
      if issued.None? {
        codes := before;  // rollback
        return Failed(InvalidGrant);
      }
      reply := Issued(issued.value);
    }

    method Refresh(refresh: Secret, client: string, resource: string, scope: Option<set<string>>, now: real)
      returns (reply: Reply)
      modifies this
      ensures Apply(old(State()), Command.Refresh(refresh, client, resource, scope, now)) == (State(), reply)
    {
      if resource != this.resource { return Failed(InvalidGrant); }
      if !RefreshMatches(State(), refresh, client, resource) { return Failed(InvalidGrant); }
      var row := refreshTokens[refresh];
      var expires := grants[row.grant].expires;
      if row.consumed {
        grants := grants[row.grant := grants[row.grant].(revoked := true)];
        return Failed(InvalidGrant);
      }
      var current := CurrentGrant(State(), row.grant, now);
      if (row.expires != 0.0 && row.expires <= now) || current.None? { return Failed(InvalidGrant); }
      if scope.Some? && scope.value != current.value.tools { return Failed(InvalidScope); }
      var before := refreshTokens;
      refreshTokens := refreshTokens[refresh := row.(consumed := true)];
      var issued := InsertTokens(row.grant, current.value.tools, expires, now);
      if issued.None? {
        refreshTokens := before;  // rollback
        return Failed(InvalidGrant);
      }
      reply := Issued(issued.value);
    }

    method RetainActiveGrants(owner: string, device: string, client: string, now: real) returns (reply: Reply)
      modifies this
      ensures Apply(old(State()), Command.RetainActiveGrants(owner, device, client, now)) == (State(), reply)
    {
      var d := DeviceOf(State(), owner, device);
      if d.None? || !d.value.active { return Failed(AccessDenied); }
      ghost var s := State();
      var all := Candidates(State(), owner, device, client, now);
      var candidates, changed := all, {};
      while candidates != {}
        invariant candidates <= all <= s.grants.Keys
        invariant changed == Usable(s, all - candidates, now)
        invariant State() == Freed(s, changed, now)
        decreases candidates
      {
        var g :| g in candidates;
        candidates := candidates - {g};
        FreeingOthersKeepsGrant(s, changed, g, now);
        UsableStep(s, all, candidates, g, now);
        if CurrentGrant(State(), g, now).Some? {
          FreeOne(s, changed, g, now);
          changed := changed + {g};
        }
      }
      assert all - candidates == all;
      reply := Retained(|changed|);
    }

    /** One pass of the loop in RetainActiveGrants. */
    method FreeOne(ghost s: Store, ghost freed: set<GrantId>, g: GrantId, now: real)
      requires State() == Freed(s, freed, now) && g in s.grants
      modifies this`grants, this`refreshTokens
      ensures State() == Freed(s, freed + {g}, now)
    {
      hide FreeGrants, FreeRefreshTokens, FreeFamily;
      FreeOneGrant(s.grants, freed, g);
      FreeOneFamily(s.refreshTokens, freed, g, now);
      grants := grants[g := grants[g].(expires := 0.0)];
      refreshTokens := FreeFamily(refreshTokens, g, now);
    }

    method Revoke(owner: string, grant: GrantId) returns (reply: Reply)
      modifies this
      ensures Apply(old(State()), Command.Revoke(owner, grant)) == (State(), reply)
    {
      if grant !in grants || grants[grant].owner != owner { return Failed(AccessDenied); }
      grants := grants[grant := grants[grant].(revoked := true)];
      reply := Done;
    }

    method RevokeDevice(owner: string, device: string) returns (reply: Reply)
      modifies this
      ensures Apply(old(State()), Command.RevokeDevice(owner, device)) == (State(), reply)
    {
      if DeviceOf(State(), owner, device).None? { return Failed(AccessDenied); }
      devices := devices[device := devices[device].(active := false, generation := devices[device].generation + 1)];
      grants := RevokeWhere(grants, device);
      reply := Done;
    }

    method BeginOwnerReset(owner: string, device: string) returns (reply: Reply)
      modifies this
      ensures Apply(old(State()), Command.BeginOwnerReset(owner, device)) == (State(), reply)
    {
      if DeviceOf(State(), owner, device).None? { return Failed(AccessDenied); }
      devices := devices[device := devices[device].(active := false, resetPending := true,
                                                    generation := devices[device].generation + 1)];
      grants := RevokeWhere(grants, device);
      reply := Done;
    }

    method CompleteOwnerReset(owner: string, device: string) returns (reply: Reply)
      modifies this
      ensures Apply(old(State()), Command.CompleteOwnerReset(owner, device)) == (State(), reply)
    {
      var d := DeviceOf(State(), owner, device);
      if d.None? || d.value.active || !d.value.resetPending { return Failed(AccessDenied); }
      devices := devices[device := devices[device].(resetPending := false)];
      reply := Done;
    }

    method EnableDevice(owner: string, device: string) returns (reply: Reply)
      modifies this
      ensures Apply(old(State()), Command.EnableDevice(owner, device)) == (State(), reply)
    {
      var d := DeviceOf(State(), owner, device);
      if d.None? { return Failed(AccessDenied); }
      if d.value.resetPending { return Failed(BadValue); }
      if d.value.active { return Changed(false); }
      grants := RevokeWhere(grants, device);
      devices := devices[device := devices[device].(active := true, generation := devices[device].generation + 1)];
      reply := Changed(true);
    }
  }
}
