/**
 What holds of the grant store in every run: one-time redemption, rotation, permanent
 revocation, the reset gate and the freshness of consent.
 */
module AuthorizationTheorems {
  import opened Outcomes
  import opened Authorization
  import opened AuthorizationInvariants

  // ----- rows persist: what one transaction, and so any run, can do to a row

  ghost predicate GrantsEvolve(rows: map<GrantId, Grant>, rows': map<GrantId, Grant>) {
    forall g <- rows ::
      && g in rows'
      && (rows[g].revoked ==> rows'[g].revoked)
      && (rows'[g].expires == rows[g].expires || rows'[g].expires == 0.0)
      && rows'[g].owner == rows[g].owner && rows'[g].device == rows[g].device
      && rows'[g].client == rows[g].client && rows'[g].tools == rows[g].tools
  }

  ghost predicate CodesEvolve(rows: map<Secret, Code>, rows': map<Secret, Code>) {
    forall c <- rows ::
      && c in rows'
      && (rows[c].consumed ==> rows'[c].consumed)
      && rows'[c] == rows[c].(consumed := rows'[c].consumed)
  }

  ghost predicate TokensEvolve(rows: map<Secret, Token>, rows': map<Secret, Token>) {
    forall t <- rows :: t in rows' && rows'[t] == rows[t]
  }

  ghost predicate RefreshTokensEvolve(rows: map<Secret, RefreshToken>, rows': map<Secret, RefreshToken>) {
    forall r <- rows ::
      r in rows' && rows'[r].grant == rows[r].grant && (rows[r].consumed ==> rows'[r].consumed)
  }

  ghost predicate ClientsEvolve(rows: map<string, set<Redirect>>, rows': map<string, set<Redirect>>) {
    forall c <- rows :: c in rows' && rows'[c] == rows[c]
  }

  ghost predicate DevicesEvolve(rows: map<string, Device>, rows': map<string, Device>) {
    forall d <- rows ::
      && d in rows' && rows'[d].owner == rows[d].owner && rows'[d].tools == rows[d].tools
      && rows'[d].generation >= rows[d].generation
  }

  /** Rows are never removed or rebound; revocation and consumption are never undone. */
  ghost predicate Evolves(s: Store, s': Store) {
    && s'.resource == s.resource && s.nextSecret <= s'.nextSecret
    && ClientsEvolve(s.clients, s'.clients)
    && DevicesEvolve(s.devices, s'.devices)
    && GrantsEvolve(s.grants, s'.grants)
    && CodesEvolve(s.codes, s'.codes)
    && TokensEvolve(s.tokens, s'.tokens)
    && RefreshTokensEvolve(s.refreshTokens, s'.refreshTokens)
  }

  lemma IssueEvolves(s: Store, s': Store, g: GrantId, tools: set<string>, grantExpires: real, now: real)
    requires Sound(s) && s' == s.(codes := s'.codes, refreshTokens := s'.refreshTokens)
    requires CodesEvolve(s.codes, s'.codes)
    requires s.refreshTokens.Keys == s'.refreshTokens.Keys && RefreshTokensEvolve(s.refreshTokens, s'.refreshTokens)
    requires IssueTokens(s', g, tools, grantExpires, now).Some?
    ensures Evolves(s, IssueTokens(s', g, tools, grantExpires, now).value.0)
  {
  }

  lemma RevokeEvolves(s: Store, g: GrantId)
    requires g in s.grants
    ensures Evolves(s, RevokeGrant(s, g))
  {
  }

  lemma ExchangeEvolves(s: Store, code: Secret, verifier: Verifier, client: string, redirect: Redirect,
                        resource: string, now: real)
    requires Sound(s)
    ensures Evolves(s, ApplyExchange(s, code, verifier, client, redirect, resource, now).0)
  {
    hide Sound, CurrentGrant;
    if CodeMatches(s, code, verifier, client, redirect, resource) {
      var row := s.codes[code];
      RevokeEvolves(s, row.grant);
      if ApplyExchange(s, code, verifier, client, redirect, resource, now).1.Issued? {
        IssueEvolves(s, s.(codes := s.codes[code := row.(consumed := true)]), row.grant,
                     s.grants[row.grant].tools, s.grants[row.grant].expires, now);
      }
    }
  }

  lemma RefreshEvolves(s: Store, refresh: Secret, client: string, resource: string, scope: Option<set<string>>,
                       now: real)
    requires Sound(s)
    ensures Evolves(s, ApplyRefresh(s, refresh, client, resource, scope, now).0)
  {
    hide Sound;
    if RefreshMatches(s, refresh, client, resource) {
      var row := s.refreshTokens[refresh];
      RevokeEvolves(s, row.grant);
      if ApplyRefresh(s, refresh, client, resource, scope, now).1.Issued? {
        IssueEvolves(s, s.(refreshTokens := s.refreshTokens[refresh := row.(consumed := true)]), row.grant,
                     s.grants[row.grant].tools, s.grants[row.grant].expires, now);
      }
    }
  }

  lemma ApproveEvolves(s: Store, c: Consent, now: real)
    requires Sound(s)
    ensures Evolves(s, ApplyApprove(s, c, now).0)
  {
  }

  lemma FreedEvolves(s: Store, freed: set<GrantId>, now: real)
    ensures Evolves(s, Freed(s, freed, now))
  {
  }

  lemma DeviceEvolves(s: Store, device: string, d: Device)
    requires device in s.devices ==>
               && d.owner == s.devices[device].owner && d.tools == s.devices[device].tools
               && d.generation >= s.devices[device].generation
    ensures Evolves(s, ReplaceDevice(s, device, d)) && Evolves(s, SetDevice(s, device, d))
  {
  }

  lemma RegistryEvolves(s: Store, client: string, redirects: set<Redirect>)
    ensures Evolves(s, s) && (client !in s.clients ==> Evolves(s, s.(clients := s.clients[client := redirects])))
  {
  }

  lemma ReopenedEvolves(s: Store, knownTools: set<string>)
    ensures Evolves(s, Reopened(s, knownTools))
  {
  }

  /** Administration touches flags and deadlines only. */
  lemma AdministrationEvolves(s: Store, c: Command)
    requires !c.ExchangeCode? && !c.Refresh? && !c.Approve?
    ensures Evolves(s, Apply(s, c).0)
  {
    hide Evolves, Freed, RevokeWhere;
    RegistryEvolves(s, "", {});
    if c.RegisterClient? {
      RegistryEvolves(s, c.client, c.redirects);
    } else if c.RetainActiveGrants? {
      FreedEvolves(s, Retainable(s, c.owner, c.device, c.client, c.now), c.now);
    } else if c.Revoke? {
      if c.grant in s.grants { RevokeEvolves(s, c.grant); }
    } else if c.Reopen? {
      ReopenedEvolves(s, c.knownTools);
    } else if c.device in Apply(s, c).0.devices {
      DeviceEvolves(s, c.device, Apply(s, c).0.devices[c.device]);
    }
  }

  lemma StepEvolves(s: Store, c: Command)
    requires Sound(s)
    ensures Evolves(s, Apply(s, c).0)
  {
    hide Evolves, Sound;
    if c.Approve? {
      ApproveEvolves(s, c.consent, c.now);
    } else if c.ExchangeCode? {
      ExchangeEvolves(s, c.code, c.verifier, c.client, c.redirect, c.resource, c.now);
    } else if c.Refresh? {
      RefreshEvolves(s, c.refresh, c.client, c.resource, c.scope, c.now);
    } else {
      AdministrationEvolves(s, c);
    }
  }

  lemma {:induction false} RunEvolves(s: Store, commands: seq<Command>)
    requires Sound(s)
    ensures Sound(Run(s, commands)) && Evolves(s, Run(s, commands))
    decreases |commands|
  {
    hide Apply, Sound;
    if commands != [] {
      StepSound(s, commands[0]);
      StepEvolves(s, commands[0]);
      RunEvolves(Apply(s, commands[0]).0, commands[1..]);
    }
  }

  // ----- one grant, one code, one live refresh token

  function CodesOf(s: Store, g: GrantId): set<Secret> {
    set c | c in s.codes && s.codes[c].grant == g
  }

  function LiveOf(s: Store, g: GrantId): set<Secret> {
    set r | r in s.refreshTokens && s.refreshTokens[r].grant == g && !s.refreshTokens[r].consumed
  }

  lemma LedgerCounts(l: Ledger, g: GrantId)
    requires Inv(l) && g in l.store.grants
    ensures CodesOf(l.store, g) == {l.codeOf[g]}
    ensures LiveOf(l.store, g) == if l.family[g] == [] then {} else {l.family[g][|l.family[g]| - 1]}
    ensures l.store.codes[l.codeOf[g]].consumed <==> l.family[g] != []
  {
    hide Sound;
    var s, f := l.store, l.family[g];
    assert Chain(s.refreshTokens, g, f);
    forall r | r in LiveOf(s, g) ensures f != [] && r == f[|f| - 1] {
      LiveTokenIsLast(s.refreshTokens, l.family, r);
    }
    if f != [] { assert f[|f| - 1] in LiveOf(s, g); }
  }

  /** In every reachable store, each grant has one code, and one live refresh token once that code is consumed. */
  lemma OneLiveRefreshToken(resource: string, knownTools: set<string>, commands: seq<Command>, g: GrantId)
    requires g in Run(Empty(resource, knownTools), commands).grants
    ensures var s := Run(Empty(resource, knownTools), commands);
            exists code :: CodesOf(s, g) == {code} && |LiveOf(s, g)| == if s.codes[code].consumed then 1 else 0
  {
    var l0 := Ledger(Empty(resource, knownTools), map[], map[]);
    EmptyInv(resource, knownTools);
    RunKeeps(l0, commands);
    LedgerCounts(Replay(l0, commands), g);
  }

  /**
   A redemption presents the last token of its family and appends that token's only successor,
   so each consumed token has exactly one; the first token of a family answers the code.
   */
  lemma RedemptionExtendsChain(l: Ledger, c: Command)
    requires Inv(l) && (c.ExchangeCode? || c.Refresh?) && Apply(l.store, c).1.Issued?
    ensures var issued := Apply(l.store, c).1.token.refresh;
            var g := if c.Refresh? then l.store.refreshTokens[c.refresh].grant else l.store.codes[c.code].grant;
            && g in l.family
            && Record(l, c).family == l.family[g := l.family[g] + [issued]]
            && (if c.Refresh? then l.family[g] != [] && l.family[g][|l.family[g]| - 1] == c.refresh
                else l.family[g] == [])
  {
    hide Sound, CurrentGrant, IssueTokens;
    var s := l.store;
    if c.Refresh? {
      RefreshTables(s, c.refresh, c.client, c.resource, c.scope, c.now);
      LiveTokenIsLast(s.refreshTokens, l.family, c.refresh);
    } else {
      ExchangeTables(s, c.code, c.verifier, c.client, c.redirect, c.resource, c.now);
    }
  }

  /** Only redemptions issue tokens, and only approval issues a code, on a new grant. */
  lemma AnswerKinds(s: Store, c: Command)
    ensures Apply(s, c).1.Issued? ==> c.ExchangeCode? || c.Refresh?
    ensures Apply(s, c).1.CodeIssued? ==>
              var code := Apply(s, c).1.code;
              c.Approve? && code in Apply(s, c).0.codes && Apply(s, c).0.codes[code].grant == s.nextSecret + 1
  {
    hide CurrentGrant, ValidateConsent, FreeGrants, FreeRefreshTokens, RevokeWhere, IssueTokens;
  }

  lemma FamilyStep(l: Ledger, c: Command, g: GrantId)
    requires Inv(l) && g in l.family
    ensures g in Record(l, c).family && l.family[g] <= Record(l, c).family[g]
  {
    hide Deadlines, Gated, Rotated, Apply;
    AnswerKinds(l.store, c);
    if Apply(l.store, c).1.Issued? {
      RedemptionExtendsChain(l, c);
    }
  }

  /** Families only grow at the end, so a successor once recorded stays the successor. */
  lemma {:induction false} FamiliesGrow(l: Ledger, commands: seq<Command>, g: GrantId)
    requires Inv(l) && g in l.family
    ensures g in Replay(l, commands).family && l.family[g] <= Replay(l, commands).family[g]
    decreases |commands|
  {
    if commands != [] {
      FamilyStep(l, commands[0], g);
      StepKeeps(l, commands[0]);
      FamiliesGrow(Record(l, commands[0]), commands[1..], g);
    }
  }

  // ----- one-time redemption

  lemma RefreshConsumes(s: Store, c: Command)
    requires Linked(s) && c.Refresh? && Apply(s, c).1.Issued?
    ensures c.refresh in Apply(s, c).0.refreshTokens && Apply(s, c).0.refreshTokens[c.refresh].consumed
  {
    RefreshTables(s, c.refresh, c.client, c.resource, c.scope, c.now);
    assert c.refresh < s.nextSecret;
  }

  lemma NeverRefreshedAgain(s: Store, later: seq<Command>, r: Secret)
    requires Sound(s) && r in s.refreshTokens && s.refreshTokens[r].consumed
    ensures r in Run(s, later).refreshTokens && Run(s, later).refreshTokens[r].consumed
  {
    hide Sound;
    RunEvolves(s, later);
  }

  lemma NeverExchangedAgain(s: Store, later: seq<Command>, c: Secret)
    requires Sound(s) && c in s.codes && s.codes[c].consumed
    ensures c in Run(s, later).codes && Run(s, later).codes[c].consumed
  {
    hide Sound;
    RunEvolves(s, later);
  }

  /** A code or refresh token that was redeemed is never redeemed again, in any later store. */
  lemma RedeemedOnce(s: Store, c: Command, later: seq<Command>, again: Command)
    requires Sound(s) && Apply(s, c).1.Issued?
    requires || (c.ExchangeCode? && again.ExchangeCode? && again.code == c.code)
             || (c.Refresh? && again.Refresh? && again.refresh == c.refresh)
    ensures !Apply(Run(Apply(s, c).0, later), again).1.Issued?
  {
    hide Linked, Deadlines, Gated;
    StepSound(s, c);
    if c.Refresh? {
      RefreshConsumes(s, c);
      NeverRefreshedAgain(Apply(s, c).0, later, c.refresh);
    } else {
      ExchangeTables(s, c.code, c.verifier, c.client, c.redirect, c.resource, c.now);
      NeverExchangedAgain(Apply(s, c).0, later, c.code);
    }
  }

  lemma RefreshConsumesOne(s: Store, refresh: Secret, client: string, resource: string, scope: Option<set<string>>,
                           now: real, r: Secret)
    requires r in s.refreshTokens && !s.refreshTokens[r].consumed && r < s.nextSecret
    ensures var after := ApplyRefresh(s, refresh, client, resource, scope, now);
            r in after.0.refreshTokens && (after.0.refreshTokens[r].consumed <==> refresh == r && after.1.Issued?)
  {
    hide CurrentGrant;
  }

  lemma ExchangeConsumesNone(s: Store, code: Secret, verifier: Verifier, client: string, redirect: Redirect,
                             resource: string, now: real, r: Secret)
    requires r in s.refreshTokens && !s.refreshTokens[r].consumed && r < s.nextSecret
    ensures var after := ApplyExchange(s, code, verifier, client, redirect, resource, now);
            r in after.0.refreshTokens && !after.0.refreshTokens[r].consumed
  {
    hide CurrentGrant;
  }

  lemma RetainConsumesNone(s: Store, owner: string, device: string, client: string, now: real, r: Secret)
    requires r in s.refreshTokens && !s.refreshTokens[r].consumed
    ensures var after := ApplyRetain(s, owner, device, client, now).0;
            r in after.refreshTokens && !after.refreshTokens[r].consumed
  {
    hide Retainable, FreeGrants;
  }

  lemma RefreshTokensUntouched(s: Store, c: Command)
    requires !c.ExchangeCode? && !c.Refresh? && !c.RetainActiveGrants?
    ensures Apply(s, c).0.refreshTokens == s.refreshTokens
  {
    hide CurrentGrant, ValidateConsent, FreeGrants, RevokeWhere, ApplyExchange, ApplyRefresh, ApplyRetain;
  }

  /** A refresh token is consumed by nothing but its own successful redemption. */
  lemma ConsumedOnlyByRedemption(s: Store, c: Command, r: Secret)
    requires Sound(s) && r in s.refreshTokens && !s.refreshTokens[r].consumed
    ensures r in Apply(s, c).0.refreshTokens
    ensures Apply(s, c).0.refreshTokens[r].consumed <==> c.Refresh? && c.refresh == r && Apply(s, c).1.Issued?
  {
    assert r < s.nextSecret;
    hide Sound, ApplyExchange, ApplyRefresh, ApplyRetain;
    if c.Refresh? {
      RefreshConsumesOne(s, c.refresh, c.client, c.resource, c.scope, c.now, r);
    } else if c.ExchangeCode? {
      ExchangeConsumesNone(s, c.code, c.verifier, c.client, c.redirect, c.resource, c.now, r);
    } else if c.RetainActiveGrants? {
      RetainConsumesNone(s, c.owner, c.device, c.client, c.now, r);
    } else {
      RefreshTokensUntouched(s, c);
    }
  }

  // ----- revocation

  /** Presenting a consumed credential of the grant with otherwise matching values. */
  ghost predicate Replays(s: Store, c: Command, g: GrantId) {
    && g in s.grants
    && (|| (&& c.ExchangeCode? && c.code in s.codes
            && s.codes[c.code].consumed && s.codes[c.code].grant == g
            && c.resource == s.resource && c.client == s.grants[g].client
            && c.redirect == s.codes[c.code].redirect && c.verifier == Verifier(s.codes[c.code].challenge))
        || (&& c.Refresh? && c.refresh in s.refreshTokens
            && s.refreshTokens[c.refresh].consumed && s.refreshTokens[c.refresh].grant == g
            && c.resource == s.resource && c.client == s.grants[g].client))
  }

  /** The owner's administration that ends a grant: of the grant itself or of its device. */
  ghost predicate Ends(s: Store, c: Command, g: GrantId)
    requires g in s.grants
  {
    || (c.Revoke? && c.grant == g && c.owner == s.grants[g].owner)
    || (&& (c.RevokeDevice? || c.BeginOwnerReset? || c.EnableDevice?)
        && c.device == s.grants[g].device && c.device in s.devices && c.owner == s.devices[c.device].owner
        && (c.EnableDevice? ==> !s.devices[c.device].active && !s.devices[c.device].resetPending))
  }

  lemma RedemptionRevokes(s: Store, c: Command, g: GrantId)
    requires Linked(s) && g in s.grants && (c.ExchangeCode? || c.Refresh?)
    ensures g in Apply(s, c).0.grants
    ensures Apply(s, c).0.grants[g].revoked <==> s.grants[g].revoked || Replays(s, c, g)
  {
    hide Linked;
    if c.ExchangeCode? && Apply(s, c).1.Issued? {
      ExchangeTables(s, c.code, c.verifier, c.client, c.redirect, c.resource, c.now);
    }
    if c.Refresh? && Apply(s, c).1.Issued? {
      RefreshTables(s, c.refresh, c.client, c.resource, c.scope, c.now);
    }
  }

  lemma DeviceCommandRevokes(s: Store, c: Command, g: GrantId)
    requires g in s.grants && (c.RevokeDevice? || c.BeginOwnerReset? || c.EnableDevice? || c.CompleteOwnerReset?)
    ensures g in Apply(s, c).0.grants
    ensures Apply(s, c).0.grants[g].revoked <==> s.grants[g].revoked || Ends(s, c, g)
  {
  }

  lemma ApproveRevokesNone(s: Store, consent: Consent, now: real, g: GrantId)
    requires Linked(s) && g in s.grants
    ensures var after := ApplyApprove(s, consent, now).0; g in after.grants && after.grants[g] == s.grants[g]
  {
    hide ValidateConsent;
    assert g < s.nextSecret;
  }

  lemma RetainRevokesNone(s: Store, owner: string, device: string, client: string, now: real, g: GrantId)
    requires g in s.grants
    ensures var after := ApplyRetain(s, owner, device, client, now).0;
            g in after.grants && after.grants[g].revoked == s.grants[g].revoked
  {
    hide Retainable, FreeRefreshTokens;
  }

  lemma GrantCommandRevokes(s: Store, c: Command, g: GrantId)
    requires Linked(s) && g in s.grants
    requires c.RegisterClient? || c.EnrollDevice? || c.Approve? || c.RetainActiveGrants? || c.Revoke? || c.Reopen?
    ensures g in Apply(s, c).0.grants
    ensures Apply(s, c).0.grants[g].revoked <==> s.grants[g].revoked || Ends(s, c, g)
  {
    hide Linked, ApplyApprove, ApplyRetain;
    if c.Approve? {
      ApproveRevokesNone(s, c.consent, c.now, g);
    } else if c.RetainActiveGrants? {
      RetainRevokesNone(s, c.owner, c.device, c.client, c.now, g);
    }
  }

  lemma AdministrationRevokes(s: Store, c: Command, g: GrantId)
    requires Linked(s) && g in s.grants && !c.ExchangeCode? && !c.Refresh?
    ensures g in Apply(s, c).0.grants
    ensures Apply(s, c).0.grants[g].revoked <==> s.grants[g].revoked || Ends(s, c, g)
  {
    hide Apply, Ends, Linked;
    if c.RevokeDevice? || c.BeginOwnerReset? || c.EnableDevice? || c.CompleteOwnerReset? {
      DeviceCommandRevokes(s, c, g);
    } else {
      GrantCommandRevokes(s, c, g);
    }
  }

  /** Exactly a replay or an ending revokes a grant. */
  lemma RevokedExactlyBy(s: Store, c: Command, g: GrantId)
    requires Sound(s) && g in s.grants
    ensures g in Apply(s, c).0.grants
    ensures Apply(s, c).0.grants[g].revoked <==> s.grants[g].revoked || Replays(s, c, g) || Ends(s, c, g)
  {
    hide Linked, Deadlines, Gated, Apply;
    if c.ExchangeCode? || c.Refresh? {
      RedemptionRevokes(s, c, g);
    } else {
      AdministrationRevokes(s, c, g);
    }
  }

  /** A redemption that fails leaves the store as it was, unless it replays a consumed credential. */
  lemma FailedRedemptionIsSilent(s: Store, c: Command)
    requires (c.ExchangeCode? || c.Refresh?) && !Apply(s, c).1.Issued?
    ensures Apply(s, c).0 == s || exists g :: Replays(s, c, g) && g in s.grants && Apply(s, c).0 == RevokeGrant(s, g)
  {
    if c.ExchangeCode? && c.code in s.codes {
      var g := s.codes[c.code].grant;
      assert Apply(s, c).0 != s ==> Replays(s, c, g) && g in s.grants && Apply(s, c).0 == RevokeGrant(s, g);
    }
    if c.Refresh? && c.refresh in s.refreshTokens {
      var g := s.refreshTokens[c.refresh].grant;
      assert Apply(s, c).0 != s ==> Replays(s, c, g) && g in s.grants && Apply(s, c).0 == RevokeGrant(s, g);
    }
  }

  /** The command redeems a credential of the grant. */
  ghost predicate Presents(s: Store, c: Command, g: GrantId) {
    || (c.ExchangeCode? && c.code in s.codes && s.codes[c.code].grant == g)
    || (c.Refresh? && c.refresh in s.refreshTokens && s.refreshTokens[c.refresh].grant == g)
  }

  lemma RevokedIsDead(s: Store, g: GrantId, token: Secret, resource: string, now: real, c: Command)
    requires g in s.grants && s.grants[g].revoked
    ensures CurrentGrant(s, g, now) == None
    ensures token in s.tokens && s.tokens[token].grant == g ==> Verify(s, token, resource, now) == None
    ensures Presents(s, c, g) ==> !Apply(s, c).1.Issued?
  {
  }

  /** After a replay or an ending, no token of the grant works in any later store, whatever is done since. */
  lemma RevokedForever(s: Store, c: Command, g: GrantId, later: seq<Command>,
                       token: Secret, resource: string, now: real, attempt: Command)
    requires Sound(s) && g in s.grants
    requires Replays(s, c, g) || Ends(s, c, g)
    ensures var s' := Run(Apply(s, c).0, later);
            && (token in s'.tokens && s'.tokens[token].grant == g ==> Verify(s', token, resource, now) == None)
            && (Presents(s', attempt, g) ==> !Apply(s', attempt).1.Issued?)
  {
    hide Sound, Apply, Replays, Ends;
    RevokedExactlyBy(s, c, g);
    StepSound(s, c);
    RunEvolves(Apply(s, c).0, later);
    RevokedIsDead(Run(Apply(s, c).0, later), g, token, resource, now, attempt);
  }

  // ----- the reset gate

  /** The command completes the device's reset. */
  ghost predicate Completes(s: Store, c: Command, device: string) {
    c.CompleteOwnerReset? && c.device == device && Apply(s, c).1 == Done
  }

  /** The command re-enables the device. */
  ghost predicate Reenables(s: Store, c: Command, device: string) {
    c.EnableDevice? && c.device == device && Apply(s, c).1 == Changed(true)
  }

  /** No command of the run completes the device's reset. */
  ghost predicate Uncompleted(s: Store, commands: seq<Command>, device: string)
    decreases |commands|
  {
    || commands == []
    || (!Completes(s, commands[0], device) && Uncompleted(Apply(s, commands[0]).0, commands[1..], device))
  }

  /** No command of the run re-enables the device. */
  ghost predicate NeverReenabled(s: Store, commands: seq<Command>, device: string)
    decreases |commands|
  {
    || commands == []
    || (!Reenables(s, commands[0], device) && NeverReenabled(Apply(s, commands[0]).0, commands[1..], device))
  }

  lemma ResetStep(s: Store, device: string, c: Command)
    requires device in s.devices && s.devices[device].resetPending && !Completes(s, c, device)
    ensures device in Apply(s, c).0.devices && Apply(s, c).0.devices[device].resetPending && !Reenables(s, c, device)
  {
    hide CurrentGrant, ValidateConsent;
  }

  /** Only completion ends a reset, and only then can the device be re-enabled. */
  lemma {:induction false} ReenablingNeedsCompletion(s: Store, device: string, commands: seq<Command>)
    requires Sound(s) && device in s.devices && s.devices[device].resetPending && Uncompleted(s, commands, device)
    ensures var s' := Run(s, commands);
            device in s'.devices && s'.devices[device].resetPending && !s'.devices[device].active
    ensures NeverReenabled(s, commands, device)
    decreases |commands|
  {
    GatedDevice(s, device);
    if commands != [] {
      hide Sound, Apply, Completes, Reenables;
      StepSound(s, commands[0]);
      ResetStep(s, device, commands[0]);
      ReenablingNeedsCompletion(Apply(s, commands[0]).0, device, commands[1..]);
    }
  }

  lemma InactiveStep(s: Store, device: string, c: Command)
    requires device in s.devices && !s.devices[device].active && !Reenables(s, c, device)
    ensures device in Apply(s, c).0.devices && !Apply(s, c).0.devices[device].active
  {
    hide CurrentGrant, ValidateConsent;
  }

  /** An inactive device stays inactive until it is re-enabled. */
  lemma {:induction false} InactiveStays(s: Store, device: string, commands: seq<Command>)
    requires device in s.devices && !s.devices[device].active && NeverReenabled(s, commands, device)
    ensures var s' := Run(s, commands); device in s'.devices && !s'.devices[device].active
    decreases |commands|
  {
    if commands != [] {
      hide Apply, Reenables;
      InactiveStep(s, device, commands[0]);
      InactiveStays(Apply(s, commands[0]).0, device, commands[1..]);
    }
  }

  /** Nothing is approved, exchanged, refreshed or verified for the device. */
  ghost predicate Closed(s: Store, device: string) {
    && (forall c: Command :: c.Approve? && c.consent.device == device ==> !Apply(s, c).1.CodeIssued?)
    && (forall c, g :: g in s.grants && s.grants[g].device == device && Presents(s, c, g) ==> !Apply(s, c).1.Issued?)
    && (forall token, resource, now ::
          (token in s.tokens && s.tokens[token].grant in s.grants && s.grants[s.tokens[token].grant].device == device)
          ==> Verify(s, token, resource, now) == None)
  }

  lemma InactiveDeviceIsClosed(s: Store, device: string)
    requires device in s.devices && !s.devices[device].active
    ensures Closed(s, device)
  {
    forall c: Command | c.Approve? && c.consent.device == device ensures !Apply(s, c).1.CodeIssued? {}
    forall c, g | g in s.grants && s.grants[g].device == device && Presents(s, c, g) ensures !Apply(s, c).1.Issued? {}
  }

  /**
   From the start of a reset its device is closed over every run until it is re-enabled; completion
   alone does not reopen it, and re-enabling needs completion first.
   */
  lemma PendingResetCloses(s: Store, device: string, commands: seq<Command>)
    requires Sound(s) && device in s.devices && s.devices[device].resetPending
    ensures Uncompleted(s, commands, device) ==> NeverReenabled(s, commands, device)
    ensures NeverReenabled(s, commands, device) ==> Closed(Run(s, commands), device)
  {
    GatedDevice(s, device);
    hide Sound, Run, Closed;
    if Uncompleted(s, commands, device) { ReenablingNeedsCompletion(s, device, commands); }
    if NeverReenabled(s, commands, device) {
      InactiveStays(s, device, commands);
      InactiveDeviceIsClosed(Run(s, commands), device);
    }
  }

  /** A revoked or reset device, its reset completed or not, is closed over every run until it is re-enabled. */
  lemma ClosedUntilReenabled(s: Store, c: Command, later: seq<Command>)
    requires (c.RevokeDevice? || c.BeginOwnerReset?) && Apply(s, c).1 == Done
             && NeverReenabled(Apply(s, c).0, later, c.device)
    ensures Closed(Run(Apply(s, c).0, later), c.device)
  {
    assert c.device in Apply(s, c).0.devices && !Apply(s, c).0.devices[c.device].active;
    hide Apply, Closed;
    InactiveStays(Apply(s, c).0, c.device, later);
    InactiveDeviceIsClosed(Run(Apply(s, c).0, later), c.device);
  }

  // ----- consent is only as fresh as its generation

  /** The command revokes, resets or re-enables the device. */
  ghost predicate Renews(s: Store, c: Command, device: string) {
    || ((c.RevokeDevice? || c.BeginOwnerReset?) && c.device == device && Apply(s, c).1 == Done)
    || (c.EnableDevice? && c.device == device && Apply(s, c).1 == Changed(true))
  }

  function GenerationOf(s: Store, device: string): nat {
    if device in s.devices then s.devices[device].generation else 0
  }

  lemma DevicesUntouched(s: Store, c: Command)
    requires || c.ExchangeCode? || c.Refresh? || c.Approve? || c.RetainActiveGrants? || c.RegisterClient? || c.Revoke?
             || c.Reopen?
    ensures Apply(s, c).0.devices == s.devices
  {
    hide CurrentGrant, ValidateConsent, FreeGrants, FreeRefreshTokens;
  }

  lemma EnrollGeneration(s: Store, owner: string, enrolled: string, tools: set<string>, device: string)
    ensures GenerationOf(ApplyEnroll(s, owner, enrolled, tools).0, device) == GenerationOf(s, device)
  {
    hide Identifier, ToolsKnown;
  }

  lemma RevokeGeneration(s: Store, owner: string, revoked: string, device: string)
    ensures var after := ApplyRevokeDevice(s, owner, revoked);
            GenerationOf(after.0, device)
            == GenerationOf(s, device) + if revoked == device && after.1 == Done then 1 else 0
  {
    hide RevokeWhere;
  }

  lemma ResetGeneration(s: Store, owner: string, begun: string, device: string)
    ensures var after := ApplyBeginReset(s, owner, begun);
            GenerationOf(after.0, device)
            == GenerationOf(s, device) + if begun == device && after.1 == Done then 1 else 0
    ensures GenerationOf(ApplyCompleteReset(s, owner, begun).0, device) == GenerationOf(s, device)
  {
    hide RevokeWhere;
  }

  lemma EnableGeneration(s: Store, owner: string, enabled: string, device: string)
    ensures var after := ApplyEnable(s, owner, enabled);
            GenerationOf(after.0, device)
            == GenerationOf(s, device) + if enabled == device && after.1 == Changed(true) then 1 else 0
  {
    hide RevokeWhere;
  }

  lemma GenerationStep(s: Store, c: Command, device: string)
    ensures GenerationOf(Apply(s, c).0, device) == GenerationOf(s, device) + if Renews(s, c, device) then 1 else 0
  {
    hide ApplyEnroll, ApplyRevokeDevice, ApplyBeginReset, ApplyCompleteReset, ApplyEnable;
    if c.EnrollDevice? {
      EnrollGeneration(s, c.owner, c.device, c.tools, device);
    } else if c.RevokeDevice? {
      RevokeGeneration(s, c.owner, c.device, device);
    } else if c.BeginOwnerReset? || c.CompleteOwnerReset? {
      ResetGeneration(s, c.owner, c.device, device);
    } else if c.EnableDevice? {
      EnableGeneration(s, c.owner, c.device, device);
    } else {
      hide Apply;
      DevicesUntouched(s, c);
    }
  }

  /** The generation counts exactly the renewals of the device in the run. */
  ghost function Renewals(s: Store, commands: seq<Command>, device: string): nat
    decreases |commands|
  {
    if commands == [] then 0
    else (if Renews(s, commands[0], device) then 1 else 0) + Renewals(Apply(s, commands[0]).0, commands[1..], device)
  }

  lemma {:induction false} GenerationCountsRenewals(s: Store, commands: seq<Command>, device: string)
    ensures GenerationOf(Run(s, commands), device) == GenerationOf(s, device) + Renewals(s, commands, device)
    decreases |commands|
  {
    if commands != [] {
      hide Apply, Renews;
      GenerationStep(s, commands[0], device);
      GenerationCountsRenewals(Apply(s, commands[0]).0, commands[1..], device);
    }
  }

  /** A consent opened at its generation is approved later only if the device was never renewed in between. */
  lemma ApprovalMeansNoRenewal(s: Store, commands: seq<Command>, consent: Consent, generation: nat, now: real)
    requires ValidateConsent(s, consent.(generation := None)) == Ok(generation)
    requires Apply(Run(s, commands), Approve(consent.(generation := Some(generation)), now)).1.CodeIssued?
    ensures Renewals(s, commands, consent.device) == 0
  {
    hide Renews, Run, Renewals;
    GenerationCountsRenewals(s, commands, consent.device);
  }

  // ----- deadlines and permissions

  /** An issued access token lives between one second and fifteen minutes, never past its grant. */
  lemma IssuedLifetime(s: Store, c: Command, now: real)
    requires (c.ExchangeCode? || c.Refresh?) && c.now == now && Apply(s, c).1.Issued?
    ensures var s', t := Apply(s, c).0, Apply(s, c).1.token;
            && 1 <= t.expiresIn <= TOKEN_SECONDS
            && t.access in s'.tokens && s'.tokens[t.access].expires == now + t.expiresIn as real
            && s'.tokens[t.access].grant in s'.grants
            && var g := s'.grants[s'.tokens[t.access].grant];
               (g.expires == 0.0 || s'.tokens[t.access].expires <= g.expires) && t.scope == g.tools
  {
  }

  /** The refresh token would be refused now: consumed, past its own deadline, or on an unusable grant. */
  predicate Refused(s: Store, refresh: Secret, now: real) {
    && refresh in s.refreshTokens
    && var row := s.refreshTokens[refresh];
       row.consumed || (row.expires != 0.0 && row.expires <= now) || CurrentGrant(s, row.grant, now).None?
  }

  lemma RetainRevivesNoGrant(s: Store, c: Command, g: GrantId, later: real)
    requires c.RetainActiveGrants? && c.now <= later
    ensures CurrentGrant(Apply(s, c).0, g, later).Some? ==> CurrentGrant(s, g, c.now).Some?
  {
    hide FreeRefreshTokens;
  }

  lemma RetainConsumesAsBefore(s: Store, c: Command, refresh: Secret)
    requires c.RetainActiveGrants? && refresh in s.refreshTokens
    ensures var rows := Apply(s, c).0.refreshTokens;
            && refresh in rows && rows[refresh].grant == s.refreshTokens[refresh].grant
            && rows[refresh].consumed == s.refreshTokens[refresh].consumed
            && (s.refreshTokens[refresh].expires <= c.now ==> rows[refresh].expires == s.refreshTokens[refresh].expires)
  {
    hide Retainable, FreeGrants;
  }

  lemma RefreshNeedsGrant(s: Store, refresh: Secret, client: string, resource: string, scope: Option<set<string>>,
                          now: real)
    requires Refused(s, refresh, now)
    ensures !ApplyRefresh(s, refresh, client, resource, scope, now).1.Issued?
  {
    hide CurrentGrant;
  }

  /** Removing deadlines revives nothing: what works afterwards already worked when they were removed. */
  lemma RetainRevivesNothing(s: Store, c: Command, g: GrantId, refresh: Secret, later: real, scope: Option<set<string>>)
    requires c.RetainActiveGrants? && c.now <= later
    ensures CurrentGrant(Apply(s, c).0, g, later).Some? ==> CurrentGrant(s, g, c.now).Some?
    ensures Refused(s, refresh, c.now) ==>
              forall client, resource :: !ApplyRefresh(Apply(s, c).0, refresh, client, resource, scope, later).1.Issued?
  {
    hide ApplyRefresh, CurrentGrant;
    RetainRevivesNoGrant(s, c, g, later);
    if Refused(s, refresh, c.now) {
      RetainConsumesAsBefore(s, c, refresh);
      RetainRevivesNoGrant(s, c, s.refreshTokens[refresh].grant, later);
      forall client, resource ensures !ApplyRefresh(Apply(s, c).0, refresh, client, resource, scope, later).1.Issued? {
        RefreshNeedsGrant(Apply(s, c).0, refresh, client, resource, scope, later);
      }
    }
  }

  /** The worker's read-only lookup agrees with the store's exactly when the grant's tools are all still known. */
  lemma ReadOnlyLookupAgrees(s: Store, g: GrantId, now: real)
    ensures CurrentGrant(s, g, now).Some? ==> CurrentGrantReadOnly(s, g, now) == CurrentGrant(s, g, now)
    ensures CurrentGrantReadOnly(s, g, now).Some?
            ==> (CurrentGrantReadOnly(s, g, now) == CurrentGrant(s, g, now) <==> s.grants[g].tools <= s.knownTools)
  {
  }

  ghost predicate ToolsAllKnown(s: Store) {
    forall g <- s.grants :: s.grants[g].tools <= s.knownTools
  }

  lemma ApproveKeepsToolsKnown(s: Store, consent: Consent, now: real)
    requires ToolsAllKnown(s)
    ensures ToolsAllKnown(ApplyApprove(s, consent, now).0)
  {
    hide Registered;
  }

  /** The command reopens the store with a tool missing that was known. */
  predicate ForgetsTools(s: Store, c: Command) {
    c.Reopen? && !(s.knownTools <= Reopened(s, c.knownTools).knownTools)
  }

  /** No command of the run forgets a tool. */
  predicate ToolsKept(s: Store, commands: seq<Command>)
    decreases |commands|
  {
    commands == [] || (!ForgetsTools(s, commands[0]) && ToolsKept(Apply(s, commands[0]).0, commands[1..]))
  }

  lemma StepKeepsToolsKnown(s: Store, c: Command)
    requires ToolsAllKnown(s) && !ForgetsTools(s, c)
    ensures ToolsAllKnown(Apply(s, c).0)
  {
    hide ApplyApprove, CurrentGrant, Retainable, FreeRefreshTokens;
    if c.Approve? { ApproveKeepsToolsKnown(s, c.consent, c.now); }
  }

  /** While no reopening forgets a tool, the two lookups always agree. */
  lemma {:induction false} LookupsAgreeWhileToolsKept(s: Store, commands: seq<Command>, g: GrantId, now: real)
    requires ToolsAllKnown(s) && ToolsKept(s, commands)
    ensures CurrentGrantReadOnly(Run(s, commands), g, now) == CurrentGrant(Run(s, commands), g, now)
    decreases |commands|
  {
    if commands != [] {
      hide Apply, CurrentGrant, CurrentGrantReadOnly, ToolsAllKnown, ForgetsTools;
      StepKeepsToolsKnown(s, commands[0]);
      LookupsAgreeWhileToolsKept(Apply(s, commands[0]).0, commands[1..], g, now);
    }
  }

  /** Reopening changes neither the tables nor the two histories, so every run may contain it. */
  lemma ReopeningKeeps(l: Ledger, knownTools: set<string>)
    requires Inv(l)
    ensures Record(l, Reopen(knownTools)) == l.(store := Reopened(l.store, knownTools))
            && Inv(Record(l, Reopen(knownTools)))
  {
    StepKeeps(l, Reopen(knownTools));
  }

  /** An owner's device and a client, enrolled and consented to with one tool. */
  const ONE_TOOL: set<string> := {"read"}
  const SETUP: seq<Command> := [
    RegisterClient("client", {Exact("https://client.example/")}),
    EnrollDevice("owner", "device", ONE_TOOL),
    Approve(Consent("owner", "device", "client", Exact("https://client.example/"), "resource",
                    ONE_TOOL, Some(7), None), 0.0)
  ]

  lemma ThreeCommands(s: Store, commands: seq<Command>)
    requires |commands| == 3
    ensures Run(s, commands) == Apply(Apply(Apply(s, commands[0]).0, commands[1]).0, commands[2]).0
  {
    hide Apply;
    var s1 := Apply(s, commands[0]).0;
    var s2 := Apply(s1, commands[1]).0;
    assert commands[1..][1..] == commands[2..] && commands[2..][1..] == [];
    assert Run(s, commands) == Run(s1, commands[1..]) == Run(s2, commands[2..]);
    assert Run(s2, commands[2..]) == Run(Apply(s2, commands[2]).0, []);
  }

  /** What the three transactions leave behind: grant 1, opened by code 0. */
  lemma SetupLeaves()
    ensures var s := Run(Empty("resource", ONE_TOOL), SETUP);
            && s.resource == "resource" && s.knownTools == ONE_TOOL && s.nextSecret == 2
            && s.clients == map["client" := {Exact("https://client.example/")}]
            && s.devices == map["device" := Device("owner", ONE_TOOL, true, 0, false)]
            && s.grants == map[1 := Grant("owner", "device", "client", ONE_TOOL, 0.0, false)]
            && s.codes == map[0 := Code(1, Exact("https://client.example/"), 7, 120.0, false)]
            && s.tokens == map[] && s.refreshTokens == map[]
  {
    var s0 := Empty("resource", ONE_TOOL);
    assert s0.knownTools == ONE_TOOL;
    var s1 := Apply(s0, SETUP[0]).0;
    assert s1 == s0.(clients := map["client" := {Exact("https://client.example/")}]);
    var s2 := Apply(s1, SETUP[1]).0;
    assert s2 == s1.(devices := map["device" := Device("owner", ONE_TOOL, true, 0, false)]);
    ThreeCommands(s0, SETUP);
  }

  /** Reopened without a consented tool, a reachable store refuses a grant that the read-only lookup still passes. */
  lemma ReadOnlyLookupPassesRemovedTool(now: real)
    ensures var s := Apply(Run(Empty("resource", ONE_TOOL), SETUP), Reopen({"write"})).0;
            CurrentGrant(s, 1, now) == None && CurrentGrantReadOnly(s, 1, now).Some?
  {
    SetupLeaves();
    hide Run;
    var s := Reopened(Run(Empty("resource", ONE_TOOL), SETUP), {"write"});
    assert "read" in s.grants[1].tools && "read" !in s.knownTools;
  }

  /** A grant's permissions are those consented to, in every later store. */
  lemma PermissionsNeverWiden(s: Store, consent: Consent, at: real, later: seq<Command>, now: real)
    requires Sound(s) && Apply(s, Approve(consent, at)).1.CodeIssued?
    ensures var s1 := Apply(s, Approve(consent, at)).0;
            var g := s1.codes[Apply(s, Approve(consent, at)).1.code].grant;
            var current := CurrentGrant(Run(s1, later), g, now);
            current.Some? ==> && current.value.tools == consent.tools && current.value.owner == consent.owner
                              && current.value.device == consent.device && current.value.client == consent.client
  {
    hide Sound;
    StepSound(s, Approve(consent, at));
    RunEvolves(Apply(s, Approve(consent, at)).0, later);
  }

  /** What a successful redemption presented, row by row. */
  lemma IssuedMeans(s: Store, c: Command, g: GrantId)
    requires Presents(s, c, g) && Apply(s, c).1.Issued?
    ensures g in s.grants && c.client == s.grants[g].client && c.resource == s.resource
            && Apply(s, c).1.token.scope == s.grants[g].tools
    ensures c.ExchangeCode? ==>
              && c.verifier.Verifier? && c.verifier.challenge == s.codes[c.code].challenge
              && c.redirect == s.codes[c.code].redirect && c.now < s.codes[c.code].expires && !s.codes[c.code].consumed
    ensures c.Refresh? ==>
              && !s.refreshTokens[c.refresh].consumed && (c.scope.Some? ==> c.scope.value == s.grants[g].tools)
  {
  }

  lemma ApprovedRows(s: Store, consent: Consent, at: real)
    requires Apply(s, Approve(consent, at)).1.CodeIssued?
    ensures var s', code := Apply(s, Approve(consent, at)).0, Apply(s, Approve(consent, at)).1.code;
            && consent.challenge.Some? && consent.resource == s.resource == s'.resource
            && code in s'.codes
            && s'.codes[code] == Code(s'.codes[code].grant, consent.redirect, consent.challenge.value,
                                      at + CODE_SECONDS, false)
            && s'.codes[code].grant in s'.grants
            && var g := s'.grants[s'.codes[code].grant];
               g.client == consent.client && g.tools == consent.tools
  {
    hide Registered, ToolsKnown;
  }

  /**
   Whatever happens between, a code is redeemed only by the client, for the callback, the resource
   and the challenge that were consented to, within two minutes; and every token issued on the
   grant, then or by any refresh, carries exactly the tools consented to.
   */
  lemma RedeemedOnlyAsConsented(s: Store, consent: Consent, at: real, later: seq<Command>, c: Command)
    requires Sound(s) && Apply(s, Approve(consent, at)).1.CodeIssued?
    requires var s1, code := Apply(s, Approve(consent, at)).0, Apply(s, Approve(consent, at)).1.code;
             var s' := Run(s1, later);
             && code in s1.codes && Presents(s', c, s1.codes[code].grant) && (c.ExchangeCode? ==> c.code == code)
             && Apply(s', c).1.Issued?
    ensures c.client == consent.client && c.resource == consent.resource
    ensures Apply(Run(Apply(s, Approve(consent, at)).0, later), c).1.token.scope == consent.tools
    ensures c.ExchangeCode? ==>
              && c.verifier.Verifier? && consent.challenge == Some(c.verifier.challenge)
              && c.redirect == consent.redirect && c.now < at + CODE_SECONDS
    ensures c.Refresh? && c.scope.Some? ==> c.scope.value == consent.tools
  {
    hide Sound, Apply;
    var s1, code := Apply(s, Approve(consent, at)).0, Apply(s, Approve(consent, at)).1.code;
    StepSound(s, Approve(consent, at));
    ApprovedRows(s, consent, at);
    RunEvolves(s1, later);
    IssuedMeans(Run(s1, later), c, s1.codes[code].grant);
  }
}
