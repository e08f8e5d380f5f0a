/**
 When the grant store gives which answer, stated on its tables, and what its tables say of one
 another in every run.
 */
module AuthorizationAnswers {
  import opened Outcomes
  import opened Authorization
  import opened AuthorizationInvariants
  import opened AuthorizationTheorems

  // ----- approval

  /** The callback is a registered one, or a registered loopback address with another port. */
  ghost predicate CallbackOf(registered: set<Redirect>, redirect: Redirect) {
    || redirect in registered
    || exists saved, port: nat ::
         saved in registered && saved.Loopback? && 1 <= port <= 65535 && redirect == saved.(port := Some(port))
  }

  /** What the tables must say for a consent to be approved. */
  ghost predicate Approvable(s: Store, c: Consent) {
    && c.resource == s.resource && c.challenge.Some?
    && c.client in s.clients && !c.redirect.Malformed? && CallbackOf(s.clients[c.client], c.redirect)
    && c.device in s.devices
    && var d := s.devices[c.device];
       && d.active && d.owner == c.owner
       && c.tools != {} && c.tools <= d.tools && c.tools <= s.knownTools
       && (c.generation.None? || c.generation == Some(d.generation))
  }

  lemma RegisteredMeans(redirect: Redirect, registered: set<Redirect>)
    ensures Registered(redirect, registered) <==> CallbackOf(registered, redirect)
  {
    if CallbackOf(registered, redirect) && redirect !in registered {
      var saved, port: nat :|
        saved in registered && saved.Loopback? && 1 <= port <= 65535 && redirect == saved.(port := Some(port));
    }
    if Registered(redirect, registered) && redirect !in registered {
      var saved :| saved in registered && saved.Loopback? && saved.host == redirect.host && saved.rest == redirect.rest;
      assert redirect == saved.(port := Some(redirect.port.value));
    }
  }

  /**
   A consent is approved exactly when the tables allow it. It opens one new grant of what was
   consented to, without a deadline, with one new code of two minutes; a refusal changes nothing
   and tells a bad request, bad values and everything else apart.
   */
  lemma ApprovedExactly(s: Store, c: Consent, now: real)
    ensures var (s', reply) := Apply(s, Approve(c, now));
            if Approvable(s, c) then
              && reply == CodeIssued(s.nextSecret)
              && s' == s.(grants := s'.grants, codes := s'.codes, nextSecret := s.nextSecret + 2)
              && s'.grants == s.grants[s.nextSecret + 1 := Grant(c.owner, c.device, c.client, c.tools, 0.0, false)]
              && s'.codes == s.codes[s.nextSecret := Code(s.nextSecret + 1, c.redirect, c.challenge.value,
                                                          now + 120.0, false)]
            else
              && s' == s
              && reply == Failed(if c.resource != s.resource || c.challenge.None? then InvalidRequest
                                 else if c.tools == {} || !(c.tools <= s.knownTools)
                                         || (c.client in s.clients && c.redirect.Malformed?) then BadValue
                                 else AccessDenied)
  {
    if c.client in s.clients { RegisteredMeans(c.redirect, s.clients[c.client]); }
    hide Registered, CallbackOf;
  }

  /** Nothing but an approval opens a grant or makes a code. */
  lemma OnlyApprovalOpens(s: Store, c: Command)
    requires !c.Approve?
    ensures Apply(s, c).0.grants.Keys == s.grants.Keys && Apply(s, c).0.codes.Keys == s.codes.Keys
  {
    hide CurrentGrant, Retainable, FreeRefreshTokens, Identifier, ToolsKnown;
  }

  /** Each code goes to a callback of its grant's client; each grant is its device owner's, of that device's tools. */
  ghost predicate Entitled(s: Store) {
    && (forall c <- s.codes ::
          && s.codes[c].grant in s.grants && s.grants[s.codes[c].grant].client in s.clients
          && !s.codes[c].redirect.Malformed?
          && CallbackOf(s.clients[s.grants[s.codes[c].grant].client], s.codes[c].redirect))
    && (forall g <- s.grants ::
          && s.grants[g].device in s.devices && s.grants[g].owner == s.devices[s.grants[g].device].owner
          && s.grants[g].tools != {} && s.grants[g].tools <= s.devices[s.grants[g].device].tools)
  }

  lemma EvolvesEntitled(s: Store, s': Store)
    requires Entitled(s) && Evolves(s, s')
    requires s'.grants.Keys == s.grants.Keys && s'.codes.Keys == s.codes.Keys
    ensures Entitled(s')
  {
    hide CallbackOf;
  }

  lemma ApproveEntitled(s: Store, c: Consent, now: real)
    requires Linked(s) && Entitled(s)
    ensures Entitled(Apply(s, Approve(c, now)).0)
  {
    ApprovedExactly(s, c, now);
    hide CallbackOf, Apply;
  }

  lemma StepEntitled(s: Store, c: Command)
    requires Sound(s) && Entitled(s)
    ensures Entitled(Apply(s, c).0)
  {
    hide Apply, Entitled, Deadlines, Gated, Evolves;
    if c.Approve? {
      ApproveEntitled(s, c.consent, c.now);
    } else {
      StepEvolves(s, c);
      OnlyApprovalOpens(s, c);
      EvolvesEntitled(s, Apply(s, c).0);
    }
  }

  lemma {:induction false} RunEntitled(s: Store, commands: seq<Command>)
    requires Sound(s) && Entitled(s)
    ensures Sound(Run(s, commands)) && Entitled(Run(s, commands))
    decreases |commands|
  {
    if commands != [] {
      hide Apply, Sound, Entitled;
      StepSound(s, commands[0]);
      StepEntitled(s, commands[0]);
      RunEntitled(Apply(s, commands[0]).0, commands[1..]);
    }
  }

  /**
   In every run each code goes to a callback that its grant's client registered, or to one that
   differs from it in a loopback port only; and each grant is its device's owner's, with some of
   the tools of that device.
   */
  lemma CodesGoToRegisteredCallbacks(resource: string, knownTools: set<string>, commands: seq<Command>)
    ensures Entitled(Run(Empty(resource, knownTools), commands))
  {
    hide Run;
    RunEntitled(Empty(resource, knownTools), commands);
  }

  // ----- use

  /** The grant is there, unrevoked and within its deadline, its device its owner's and active, its tools allowed. */
  ghost predicate Works(s: Store, g: GrantId, now: real) {
    && g in s.grants && !s.grants[g].revoked && (s.grants[g].expires == 0.0 || now < s.grants[g].expires)
    && s.grants[g].device in s.devices
    && var d := s.devices[s.grants[g].device];
       d.active && d.owner == s.grants[g].owner && s.grants[g].tools <= d.tools && s.grants[g].tools <= s.knownTools
  }

  /** An access token passes exactly for its resource, before its expiry, while its grant works; it names that grant. */
  lemma VerifiedExactly(s: Store, token: Secret, resource: string, now: real)
    ensures Verify(s, token, resource, now).Some? <==>
              && resource == s.resource && token in s.tokens && now < s.tokens[token].expires
              && Works(s, s.tokens[token].grant, now)
    ensures Verify(s, token, resource, now).Some? ==>
              var g := s.tokens[token].grant;
              Verify(s, token, resource, now)
              == Some(GrantIdentity(g, s.grants[g].owner, s.grants[g].device, s.grants[g].client, s.resource,
                                    s.grants[g].tools))
  {
  }

  /** The worker's lookup passes exactly while the grant works, whether or not its tools are still known. */
  lemma ReadOnlyLookupExactly(s: Store, g: GrantId, now: real)
    ensures CurrentGrantReadOnly(s, g, now).Some? <==>
              g in s.grants && Works(s.(knownTools := s.grants[g].tools), g, now)
    ensures CurrentGrant(s, g, now).Some? <==> Works(s, g, now)
  {
  }

  /** A lifetime of whole seconds: fifteen minutes, or as many as the grant has left if that is less. */
  ghost predicate Longest(seconds: int, grantExpires: real, now: real) {
    && 1 <= seconds <= 900
    && (grantExpires == 0.0 || seconds as real <= grantExpires - now)
    && (seconds == 900 || (grantExpires != 0.0 && grantExpires - now < (seconds + 1) as real))
  }

  /** What a redemption for this grant leaves: a new pair, and one row each, of the longest lifetime. */
  ghost predicate Pairs(s: Store, s': Store, t: AccessToken, g: GrantId, now: real)
    requires g in s.grants
  {
    && t.access == s.nextSecret && t.refresh == s.nextSecret + 1 && s'.nextSecret == s.nextSecret + 2
    && t.scope == s.grants[g].tools && Longest(t.expiresIn, s.grants[g].expires, now)
    && s' == s.(codes := s'.codes, tokens := s'.tokens, refreshTokens := s'.refreshTokens, nextSecret := s'.nextSecret)
    && s'.tokens == s.tokens[t.access := Token(g, now + t.expiresIn as real)]
  }

  /**
   A code is exchanged exactly when it is unconsumed, within its two minutes and presented with its
   client, callback, resource and verifier, for a grant that works for another second.
   */
  lemma ExchangedExactly(s: Store, c: Command)
    requires c.ExchangeCode?
    ensures Apply(s, c).1.Issued? <==>
              && c.resource == s.resource && c.code in s.codes
              && var row := s.codes[c.code];
                 && !row.consumed && c.now < row.expires
                 && c.verifier == Verifier(row.challenge) && c.redirect == row.redirect
                 && Works(s, row.grant, c.now) && c.client == s.grants[row.grant].client
                 && (s.grants[row.grant].expires == 0.0 || s.grants[row.grant].expires - c.now >= 1.0)
    ensures Apply(s, c).1.Issued? ==>
              && c.code in s.codes && s.codes[c.code].grant in s.grants
              && Pairs(s, Apply(s, c).0, Apply(s, c).1.token, s.codes[c.code].grant, c.now)
    ensures !Apply(s, c).1.Issued? ==> Apply(s, c).1 == Failed(InvalidGrant)
  {
  }

  /**
   A refresh token is redeemed exactly when it is unconsumed, within its deadline and presented by
   its client for the resource, asking for its grant's whole scope or none, and the grant works for
   another second; only a live token with another scope is told so.
   */
  lemma RefreshedExactly(s: Store, c: Command)
    requires c.Refresh?
    ensures var live :=
              && c.resource == s.resource && c.refresh in s.refreshTokens
              && var row := s.refreshTokens[c.refresh];
                 && !row.consumed && (row.expires == 0.0 || c.now < row.expires)
                 && Works(s, row.grant, c.now) && c.client == s.grants[row.grant].client;
            && (Apply(s, c).1.Issued? <==>
                  && live
                  && var g := s.grants[s.refreshTokens[c.refresh].grant];
                     && (c.scope.None? || c.scope.value == g.tools)
                     && (g.expires == 0.0 || g.expires - c.now >= 1.0))
            && (Apply(s, c).1.Issued? ==>
                  Pairs(s, Apply(s, c).0, Apply(s, c).1.token, s.refreshTokens[c.refresh].grant, c.now))
            && (!Apply(s, c).1.Issued? ==>
                  Apply(s, c).1 == Failed(
                    if live && c.scope.Some? && c.scope.value != s.grants[s.refreshTokens[c.refresh].grant].tools
                    then InvalidScope else InvalidGrant))
  {
  }

  // ----- administration

  lemma NamesArePrintable(name: string)
    ensures Identifier(name) <==> 0 < |name| <= 128 && forall x <- name :: '!' <= x <= '~'
  {
    assert 33 as char == '!' && 126 as char == '~';
    assert forall i :: 0 <= i < |name| ==> name[i] in name;
    if Identifier(name) {
      forall x <- name ensures '!' <= x <= '~' {
        var i :| 0 <= i < |name| && name[i] == x;
      }
    }
  }

  /** A client registers one to ten well-formed callbacks once, under a printable name of up to 128 characters. */
  lemma RegisteredExactly(s: Store, client: string, redirects: set<Redirect>)
    ensures var (s', reply) := Apply(s, RegisterClient(client, redirects));
            && (reply == Done <==>
                  && 0 < |client| <= 128 && (forall x <- client :: '!' <= x <= '~')
                  && 1 <= |redirects| <= 10 && (forall x <- redirects :: !x.Malformed?) && client !in s.clients)
            && s' == (if reply == Done then s.(clients := s.clients[client := redirects]) else s)
            && (reply == Failed(Duplicate) ==> client in s.clients)
  {
    NamesArePrintable(client);
    hide Identifier;
    assert Malformed in redirects <==> exists x <- redirects :: x.Malformed?;
  }

  /** A device is enrolled once, active and at generation 0, with some of the known tools. */
  lemma EnrolledExactly(s: Store, owner: string, device: string, tools: set<string>)
    ensures var (s', reply) := Apply(s, EnrollDevice(owner, device, tools));
            && (reply == Done <==>
                  && 0 < |owner| <= 128 && (forall x <- owner :: '!' <= x <= '~')
                  && 0 < |device| <= 128 && (forall x <- device :: '!' <= x <= '~')
                  && tools != {} && tools <= s.knownTools && device !in s.devices)
            && s' == if reply == Done then s.(devices := s.devices[device := Device(owner, tools, true, 0, false)])
                     else s
  {
    NamesArePrintable(owner);
    NamesArePrintable(device);
    hide Identifier;
  }

  /** A grant's owner, and nobody else, revokes it, and nothing but it. */
  lemma RevokedExactly(s: Store, owner: string, g: GrantId)
    ensures var (s', reply) := Apply(s, Revoke(owner, g));
            if g in s.grants && s.grants[g].owner == owner
            then reply == Done && s' == s.(grants := s.grants[g := s.grants[g].(revoked := true)])
            else reply == Failed(AccessDenied) && s' == s
  {
  }

  /** A store opened for the first time is empty; opened again it is as it was. Local tools are never known. */
  lemma OpenedExactly(s: Store, resource: string, knownTools: set<string>)
    ensures var known := set tool | tool in knownTools && tool != "operations_recent";
            && Apply(s, Reopen(knownTools)) == (s.(knownTools := known), Done)
            && Empty(resource, knownTools)
               == Store(resource, known, map[], map[], map[], map[], map[], map[], 0)
  {
    assert knownTools - LOCAL_ONLY_TOOLS == set tool | tool in knownTools && tool != "operations_recent";
  }

  /** Administration of a device by its owner. */
  ghost predicate Owns(s: Store, owner: string, device: string) {
    device in s.devices && s.devices[device].owner == owner
  }

  /** What a device's new row leaves: the other devices and the other grants as they were, this device's revoked. */
  ghost predicate Replaced(s: Store, s': Store, device: string, d: Device) {
    && s' == s.(devices := s.devices[device := d], grants := s'.grants)
    && s'.grants.Keys == s.grants.Keys
    && forall g <- s.grants ::
         s'.grants[g] == if s.grants[g].device == device then s.grants[g].(revoked := true) else s.grants[g]
  }

  /**
   Only a device's owner administers it. Revoking deactivates it, and beginning a reset closes the
   gate too; completing opens the gate of an inactive device only; enabling wants the gate open.
   Each change of activity raises the generation and revokes the device's grants.
   */
  lemma DeviceCommandsExactly(s: Store, c: Command)
    requires c.RevokeDevice? || c.BeginOwnerReset? || c.CompleteOwnerReset? || c.EnableDevice?
    ensures var (s', reply) := Apply(s, c);
            if !Owns(s, c.owner, c.device) then s' == s && reply == Failed(AccessDenied)
            else
              var d := s.devices[c.device];
              match c
              case RevokeDevice(_, device) =>
                reply == Done && Replaced(s, s', device, d.(active := false, generation := d.generation + 1))
              case BeginOwnerReset(_, device) =>
                && reply == Done
                && Replaced(s, s', device, d.(active := false, generation := d.generation + 1, resetPending := true))
              case CompleteOwnerReset(_, device) =>
                if d.resetPending && !d.active
                then reply == Done && s' == s.(devices := s.devices[device := d.(resetPending := false)])
                else reply == Failed(AccessDenied) && s' == s
              case EnableDevice(_, device) =>
                if d.resetPending then reply == Failed(BadValue) && s' == s
                else if d.active then reply == Changed(false) && s' == s
                else && reply == Changed(true)
                     && Replaced(s, s', device, d.(active := true, generation := d.generation + 1))
  {
  }

  /** A grant that administration frees: the client's for this device, working, with time left before its deadline. */
  ghost predicate TimeLimited(s: Store, owner: string, device: string, client: string, g: GrantId, now: real) {
    && g in s.grants && s.grants[g].owner == owner && s.grants[g].device == device && s.grants[g].client == client
    && now < s.grants[g].expires && Works(s, g, now)
  }

  /**
   The owner of an active device frees a client's grants of their deadline: exactly the working,
   time-limited ones, each with its live refresh tokens, and nothing else.
   */
  lemma RetainedExactly(s: Store, owner: string, device: string, client: string, now: real)
    ensures var (s', reply) := Apply(s, RetainActiveGrants(owner, device, client, now));
            if !Owns(s, owner, device) || !s.devices[device].active then s' == s && reply == Failed(AccessDenied)
            else
              && reply.Retained?
              && reply.count == |set g | g in s.grants && TimeLimited(s, owner, device, client, g, now)|
              && s' == s.(grants := s'.grants, refreshTokens := s'.refreshTokens)
              && s'.grants.Keys == s.grants.Keys && s'.refreshTokens.Keys == s.refreshTokens.Keys
              && (forall g <- s.grants ::
                    s'.grants[g] == if TimeLimited(s, owner, device, client, g, now) then s.grants[g].(expires := 0.0)
                                    else s.grants[g])
              && (forall r <- s.refreshTokens ::
                    s'.refreshTokens[r] ==
                      if && TimeLimited(s, owner, device, client, s.refreshTokens[r].grant, now)
                         && !s.refreshTokens[r].consumed && now < s.refreshTokens[r].expires
                      then s.refreshTokens[r].(expires := 0.0) else s.refreshTokens[r])
  {
    var freed := Retainable(s, owner, device, client, now);
    forall g ensures g in freed <==> TimeLimited(s, owner, device, client, g, now) {
      ReadOnlyLookupExactly(s, g, now);
    }
    hide CurrentGrant, Retainable, Works;
    assert freed == set g | g in s.grants && TimeLimited(s, owner, device, client, g, now);
  }
}
