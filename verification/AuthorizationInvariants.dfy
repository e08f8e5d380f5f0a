/**
 What every transaction of the grant store keeps, and what follows for every run.

 A `Ledger` is a store together with the history a run leaves behind: which code opened
 each grant, and in which order the grant's refresh tokens were issued.
 */
module AuthorizationInvariants {
  import opened Outcomes
  import opened Authorization

  datatype Ledger = Ledger(store: Store, codeOf: map<GrantId, Secret>, family: map<GrantId, seq<Secret>>)

  /** A new grant, opened by the code just stored. */
  function Opening(l: Ledger, s: Store, code: Secret): Ledger {
    if code in s.codes then Ledger(s, l.codeOf[s.codes[code].grant := code], l.family[s.codes[code].grant := []])
    else l.(store := s)
  }

  /** A new refresh token at the end of its grant's family. */
  function Rotation(l: Ledger, s: Store, refresh: Secret): Ledger {
    if refresh in s.refreshTokens && s.refreshTokens[refresh].grant in l.family then
      var g := s.refreshTokens[refresh].grant;
      Ledger(s, l.codeOf, l.family[g := l.family[g] + [refresh]])
    else l.(store := s)
  }

  function Note(l: Ledger, after: (Store, Reply)): Ledger {
    match after.1
    case CodeIssued(code) => Opening(l, after.0, code)
    case Issued(token) => Rotation(l, after.0, token.refresh)
    case _ => l.(store := after.0)
  }

  function Record(l: Ledger, c: Command): Ledger {
    Note(l, Apply(l.store, c))
  }

  function Replay(l: Ledger, commands: seq<Command>): Ledger
    decreases |commands|
  {
    if commands == [] then l else Replay(Record(l, commands[0]), commands[1..])
  }

  // ----- the invariant

  /** Rows refer to existing rows, and every generated value is below the counter. */
  ghost predicate Linked(s: Store) {
    && (forall g <- s.grants :: g < s.nextSecret && s.grants[g].client in s.clients && s.grants[g].device in s.devices)
    && (forall c <- s.codes :: c < s.nextSecret && s.codes[c].grant in s.grants)
    && (forall t <- s.tokens :: t < s.nextSecret && s.tokens[t].grant in s.grants)
    && (forall r <- s.refreshTokens :: r < s.nextSecret && s.refreshTokens[r].grant in s.grants)
  }

  /** No token outlives its grant's deadline, and a live refresh token shares that deadline. */
  ghost predicate Deadlines(s: Store)
    requires Linked(s)
  {
    && (forall t <- s.tokens ::
          s.grants[s.tokens[t].grant].expires == 0.0 || s.tokens[t].expires <= s.grants[s.tokens[t].grant].expires)
    && (forall r <- s.refreshTokens ::
          !s.refreshTokens[r].consumed ==> s.refreshTokens[r].expires == s.grants[s.refreshTokens[r].grant].expires)
  }

  /** A device whose owner reset is pending is inactive. */
  ghost predicate Gated(s: Store) {
    forall d <- s.devices :: s.devices[d].resetPending ==> !s.devices[d].active
  }

  /** Each grant was opened by exactly one code, which is consumed once the grant has issued tokens. */
  ghost predicate Opened(codes: map<Secret, Code>, codeOf: map<GrantId, Secret>, family: map<GrantId, seq<Secret>>) {
    && codeOf.Keys == family.Keys
    && (forall g <- codeOf ::
          codeOf[g] in codes && codes[codeOf[g]].grant == g && (codes[codeOf[g]].consumed <==> family[g] != []))
    && (forall c <- codes :: codes[c].grant in codeOf && codeOf[codes[c].grant] == c)
  }

  /** The family of a grant: its refresh tokens in order of issue, only the last one unconsumed. */
  ghost predicate Chain(rows: map<Secret, RefreshToken>, g: GrantId, family: seq<Secret>) {
    && (forall i, j :: 0 <= i < j < |family| ==> family[i] != family[j])
    && (forall i :: 0 <= i < |family| ==>
          && family[i] in rows
          && rows[family[i]].grant == g
          && (rows[family[i]].consumed <==> i < |family| - 1))
  }

  ghost predicate Rotated(rows: map<Secret, RefreshToken>, family: map<GrantId, seq<Secret>>) {
    && (forall g <- family :: Chain(rows, g, family[g]))
    && (forall r <- rows :: rows[r].grant in family && r in family[rows[r].grant])
  }

  ghost predicate Sound(s: Store) {
    Linked(s) && Deadlines(s) && Gated(s)
  }

  ghost predicate Traced(l: Ledger) {
    && l.codeOf.Keys == l.store.grants.Keys
    && Opened(l.store.codes, l.codeOf, l.family)
    && Rotated(l.store.refreshTokens, l.family)
  }

  ghost predicate Inv(l: Ledger) {
    Sound(l.store) && Traced(l)
  }

  lemma EmptyInv(resource: string, knownTools: set<string>)
    ensures Inv(Ledger(Empty(resource, knownTools), map[], map[]))
  {
  }

  // ----- what the transactions do to the two histories

  lemma OpenedByApprove(codes: map<Secret, Code>, codeOf: map<GrantId, Secret>, family: map<GrantId, seq<Secret>>,
                        g: GrantId, code: Secret, row: Code)
    requires Opened(codes, codeOf, family)
    requires g !in family && code !in codes && row.grant == g && !row.consumed
    ensures Opened(codes[code := row], codeOf[g := code], family[g := []])
  {
  }

  lemma OpenedByExchange(codes: map<Secret, Code>, codeOf: map<GrantId, Secret>, family: map<GrantId, seq<Secret>>,
                         code: Secret, refresh: Secret)
    requires Opened(codes, codeOf, family) && code in codes
    ensures codes[code].grant in family
    ensures Opened(codes[code := codes[code].(consumed := true)], codeOf,
                   family[codes[code].grant := family[codes[code].grant] + [refresh]])
  {
  }

  lemma OpenedByRefresh(codes: map<Secret, Code>, codeOf: map<GrantId, Secret>, family: map<GrantId, seq<Secret>>,
                        g: GrantId, refresh: Secret)
    requires Opened(codes, codeOf, family) && g in family && family[g] != []
    ensures Opened(codes, codeOf, family[g := family[g] + [refresh]])
  {
  }

  lemma RotatedByApprove(rows: map<Secret, RefreshToken>, family: map<GrantId, seq<Secret>>, g: GrantId)
    requires Rotated(rows, family) && g !in family
    ensures Rotated(rows, family[g := []])
  {
  }

  /** The first token of a family. */
  lemma RotatedByExchange(rows: map<Secret, RefreshToken>, family: map<GrantId, seq<Secret>>,
                          g: GrantId, refresh: Secret, expires: real)
    requires Rotated(rows, family) && g in family && family[g] == [] && refresh !in rows
    ensures Rotated(rows[refresh := RefreshToken(g, expires, false)], family[g := family[g] + [refresh]])
  {
    var rows', family' := rows[refresh := RefreshToken(g, expires, false)], family[g := family[g] + [refresh]];
    forall h <- family' ensures Chain(rows', h, family'[h]) {
      if h != g { assert Chain(rows, h, family[h]); }
    }
  }

  /** An unconsumed token is the last of its family. */
  lemma LiveTokenIsLast(rows: map<Secret, RefreshToken>, family: map<GrantId, seq<Secret>>, r: Secret)
    requires Rotated(rows, family) && r in rows && !rows[r].consumed
    ensures var f := family[rows[r].grant]; f != [] && f[|f| - 1] == r
  {
    assert Chain(rows, rows[r].grant, family[rows[r].grant]);
  }

  /** A later token of a family succeeds the live one. */
  lemma RotatedByRefresh(rows: map<Secret, RefreshToken>, family: map<GrantId, seq<Secret>>,
                         r: Secret, refresh: Secret, expires: real)
    requires Rotated(rows, family) && r in rows && !rows[r].consumed && refresh !in rows
    ensures var g := rows[r].grant;
            Rotated(rows[r := rows[r].(consumed := true)][refresh := RefreshToken(g, expires, false)],
                    family[g := family[g] + [refresh]])
  {
    var g := rows[r].grant;
    var rows' := rows[r := rows[r].(consumed := true)][refresh := RefreshToken(g, expires, false)];
    var family' := family[g := family[g] + [refresh]];
    LiveTokenIsLast(rows, family, r);
    assert Chain(rows, g, family[g]);
    forall h <- family' ensures Chain(rows', h, family'[h]) {
      if h != g { assert Chain(rows, h, family[h]); }
    }
    forall q <- rows' ensures q in family'[rows'[q].grant] {
      if q == refresh { assert family'[g][|family[g]|] == q; }
    }
  }

  lemma RotatedByRetain(rows: map<Secret, RefreshToken>, family: map<GrantId, seq<Secret>>, freed: set<GrantId>,
                        now: real)
    requires Rotated(rows, family)
    ensures Rotated(FreeRefreshTokens(rows, freed, now), family)
  {
    forall h <- family ensures Chain(FreeRefreshTokens(rows, freed, now), h, family[h]) {
      assert Chain(rows, h, family[h]);
    }
  }

  // ----- every transaction keeps the invariant

  lemma ApproveSound(s: Store, c: Consent, now: real)
    requires Sound(s)
    ensures Sound(ApplyApprove(s, c, now).0)
  {
  }

  lemma ApproveTraced(l: Ledger, c: Consent, now: real)
    requires Sound(l.store) && Traced(l) && ValidateConsent(l.store, c).Ok?
    ensures Traced(Note(l, ApplyApprove(l.store, c, now)))
  {
    var s, code, g := l.store, l.store.nextSecret, l.store.nextSecret + 1;
    OpenedByApprove(s.codes, l.codeOf, l.family, g, code, ApplyApprove(s, c, now).0.codes[code]);
    RotatedByApprove(s.refreshTokens, l.family, g);
  }

  lemma ApproveStepTraced(l: Ledger, c: Command)
    requires Sound(l.store) && Traced(l) && c.Approve?
    ensures Traced(Record(l, c))
  {
    hide Sound, Traced;
    if ValidateConsent(l.store, c.consent).Ok? { ApproveTraced(l, c.consent, c.now); }
  }

  /** Issuing for a grant that is not past its deadline respects every deadline. */
  lemma IssueSound(s: Store, g: GrantId, tools: set<string>, now: real)
    requires Sound(s) && g in s.grants
    requires IssueTokens(s, g, tools, s.grants[g].expires, now).Some?
    ensures Sound(IssueTokens(s, g, tools, s.grants[g].expires, now).value.0)
  {
  }

  lemma RevokeSound(s: Store, g: GrantId)
    requires Sound(s) && g in s.grants
    ensures Sound(RevokeGrant(s, g))
  {
  }

  lemma ExchangeSound(s: Store, code: Secret, verifier: Verifier, client: string, redirect: Redirect,
                      resource: string, now: real)
    requires Sound(s)
    ensures Sound(ApplyExchange(s, code, verifier, client, redirect, resource, now).0)
  {
    if CodeMatches(s, code, verifier, client, redirect, resource) {
      var row := s.codes[code];
      if row.consumed {
        RevokeSound(s, row.grant);
      } else if ApplyExchange(s, code, verifier, client, redirect, resource, now).1.Issued? {
        IssueSound(s.(codes := s.codes[code := row.(consumed := true)]), row.grant, s.grants[row.grant].tools, now);
      }
    }
  }

  lemma RefreshSound(s: Store, refresh: Secret, client: string, resource: string, scope: Option<set<string>>, now: real)
    requires Sound(s)
    ensures Sound(ApplyRefresh(s, refresh, client, resource, scope, now).0)
  {
    if RefreshMatches(s, refresh, client, resource) {
      var row := s.refreshTokens[refresh];
      if row.consumed {
        RevokeSound(s, row.grant);
      } else if ApplyRefresh(s, refresh, client, resource, scope, now).1.Issued? {
        IssueSound(s.(refreshTokens := s.refreshTokens[refresh := row.(consumed := true)]), row.grant,
                   s.grants[row.grant].tools, now);
      }
    }
  }

  /** The first pair of a grant, in the tables. */
  lemma ExchangeTables(s: Store, code: Secret, verifier: Verifier, client: string, redirect: Redirect,
                       resource: string, now: real)
    requires ApplyExchange(s, code, verifier, client, redirect, resource, now).1.Issued?
    ensures var after := ApplyExchange(s, code, verifier, client, redirect, resource, now);
            && code in s.codes && s.codes[code].grant in s.grants
            && !s.codes[code].consumed
            && after.1.token.refresh == s.nextSecret + 1
            && after.0.grants == s.grants
            && after.0.codes == s.codes[code := s.codes[code].(consumed := true)]
            && after.0.refreshTokens
               == s.refreshTokens[s.nextSecret + 1 :=
                    RefreshToken(s.codes[code].grant, s.grants[s.codes[code].grant].expires, false)]
  {
  }

  lemma ExchangeTraced(l: Ledger, s': Store, code: Secret, refresh: Secret, expires: real)
    requires Sound(l.store) && Traced(l)
    requires code in l.store.codes && !l.store.codes[code].consumed
    requires refresh == l.store.nextSecret + 1 && s'.grants == l.store.grants
    requires s'.codes == l.store.codes[code := l.store.codes[code].(consumed := true)]
    requires s'.refreshTokens
             == l.store.refreshTokens[refresh := RefreshToken(l.store.codes[code].grant, expires, false)]
    ensures Traced(Rotation(l, s', refresh))
  {
    OpenedByExchange(l.store.codes, l.codeOf, l.family, code, refresh);
    RotatedByExchange(l.store.refreshTokens, l.family, l.store.codes[code].grant, refresh, expires);
  }

  /** A rotation in the tables: one token consumed, its successor inserted. */
  lemma RefreshTables(s: Store, refresh: Secret, client: string, resource: string, scope: Option<set<string>>,
                      now: real)
    requires ApplyRefresh(s, refresh, client, resource, scope, now).1.Issued?
    ensures var after := ApplyRefresh(s, refresh, client, resource, scope, now);
            && refresh in s.refreshTokens && s.refreshTokens[refresh].grant in s.grants
            && !s.refreshTokens[refresh].consumed
            && after.1.token.refresh == s.nextSecret + 1
            && after.0.grants == s.grants
            && after.0.codes == s.codes
            && after.0.refreshTokens
               == s.refreshTokens[refresh := s.refreshTokens[refresh].(consumed := true)]
                  [s.nextSecret + 1 := RefreshToken(s.refreshTokens[refresh].grant,
                                                    s.grants[s.refreshTokens[refresh].grant].expires, false)]
  {
  }

  lemma RefreshTraced(l: Ledger, s': Store, old': Secret, refresh: Secret, expires: real)
    requires Sound(l.store) && Traced(l)
    requires old' in l.store.refreshTokens && !l.store.refreshTokens[old'].consumed
    requires refresh == l.store.nextSecret + 1 && s'.grants == l.store.grants && s'.codes == l.store.codes
    requires s'.refreshTokens
             == l.store.refreshTokens[old' := l.store.refreshTokens[old'].(consumed := true)]
                [refresh := RefreshToken(l.store.refreshTokens[old'].grant, expires, false)]
    ensures Traced(Rotation(l, s', refresh))
  {
    var g := l.store.refreshTokens[old'].grant;
    LiveTokenIsLast(l.store.refreshTokens, l.family, old');
    OpenedByRefresh(l.store.codes, l.codeOf, l.family, g, refresh);
    RotatedByRefresh(l.store.refreshTokens, l.family, old', refresh, expires);
  }

  lemma RetainSound(s: Store, freed: set<GrantId>, now: real)
    requires Sound(s)
    requires forall g <- freed :: g in s.grants && s.grants[g].expires > now
    ensures Sound(Freed(s, freed, now))
  {
  }

  lemma GatedDevice(s: Store, device: string)
    requires Sound(s) && device in s.devices
    ensures s.devices[device].resetPending ==> !s.devices[device].active
  {
  }

  lemma SetDeviceSound(s: Store, device: string, d: Device)
    requires Sound(s) && (d.resetPending ==> !d.active)
    ensures Sound(SetDevice(s, device, d))
  {
  }

  lemma RevokeWhereSound(s: Store, device: string)
    requires Sound(s)
    ensures Sound(s.(grants := RevokeWhere(s.grants, device)))
  {
  }

  lemma RegisterSound(s: Store, client: string, redirects: set<Redirect>)
    requires Sound(s)
    ensures Sound(s.(clients := s.clients[client := redirects]))
  {
  }

  lemma ReplacedSound(s: Store, device: string, d: Device)
    requires Sound(s) && (d.resetPending ==> !d.active)
    ensures Sound(ReplaceDevice(s, device, d))
  {
    hide Sound, RevokeWhere;
    SetDeviceSound(s, device, d);
    RevokeWhereSound(SetDevice(s, device, d), device);
  }

  lemma DeviceStepSound(s: Store, c: Command)
    requires Sound(s)
    requires c.RevokeDevice? || c.BeginOwnerReset? || c.CompleteOwnerReset? || c.EnableDevice?
    ensures Sound(Apply(s, c).0)
  {
    hide Sound, ReplaceDevice, SetDevice;
    if c.device in s.devices {
      GatedDevice(s, c.device);
      var d := s.devices[c.device];
      if c.RevokeDevice? {
        ReplacedSound(s, c.device, d.(active := false, generation := d.generation + 1));
      } else if c.BeginOwnerReset? {
        ReplacedSound(s, c.device, d.(active := false, resetPending := true, generation := d.generation + 1));
      } else if c.CompleteOwnerReset? {
        SetDeviceSound(s, c.device, d.(resetPending := false));
      } else if !d.resetPending {
        ReplacedSound(s, c.device, d.(active := true, generation := d.generation + 1));
      }
    }
  }

  lemma ReopenedSound(s: Store, knownTools: set<string>)
    requires Sound(s)
    ensures Sound(Reopened(s, knownTools))
  {
  }

  lemma AdministrationSound(s: Store, c: Command)
    requires Sound(s) && !c.ExchangeCode? && !c.Refresh? && !c.Approve?
    ensures Sound(Apply(s, c).0)
  {
    hide Sound;
    if c.RegisterClient? {
      RegisterSound(s, c.client, c.redirects);
    } else if c.EnrollDevice? {
      SetDeviceSound(s, c.device, Device(c.owner, c.tools, true, 0, false));
    } else if c.RetainActiveGrants? {
      RetainSound(s, Retainable(s, c.owner, c.device, c.client, c.now), c.now);
    } else if c.Revoke? {
      if c.grant in s.grants { RevokeSound(s, c.grant); }
    } else if c.Reopen? {
      ReopenedSound(s, c.knownTools);
    } else {
      DeviceStepSound(s, c);
    }
  }

  lemma StepSound(s: Store, c: Command)
    requires Sound(s)
    ensures Sound(Apply(s, c).0)
  {
    hide Sound;
    if c.Approve? {
      ApproveSound(s, c.consent, c.now);
    } else if c.ExchangeCode? {
      ExchangeSound(s, c.code, c.verifier, c.client, c.redirect, c.resource, c.now);
    } else if c.Refresh? {
      RefreshSound(s, c.refresh, c.client, c.resource, c.scope, c.now);
    } else {
      AdministrationSound(s, c);
    }
  }

  /** A transaction that touches no code and no refresh token leaves every history as it was. */
  lemma QuietTraced(l: Ledger, s': Store)
    requires Traced(l)
    requires s'.grants.Keys == l.store.grants.Keys && s'.codes == l.store.codes
    requires s'.refreshTokens == l.store.refreshTokens
    ensures Traced(l.(store := s'))
  {
  }

  lemma AdministrationTraced(l: Ledger, c: Command)
    requires Traced(l) && !c.ExchangeCode? && !c.Refresh? && !c.Approve?
    ensures Traced(Record(l, c))
  {
    hide Opened, Rotated;
    if c.RetainActiveGrants? {
      RotatedByRetain(l.store.refreshTokens, l.family, Retainable(l.store, c.owner, c.device, c.client, c.now), c.now);
    } else {
      QuietTraced(l, Apply(l.store, c).0);
    }
  }

  lemma RedemptionTraced(l: Ledger, c: Command)
    requires Sound(l.store) && Traced(l) && (c.ExchangeCode? || c.Refresh?)
    ensures Traced(Record(l, c))
  {
    hide Sound, Traced;
    var s, after := l.store, Apply(l.store, c);
    if !after.1.Issued? {
      QuietTraced(l, after.0);
    } else if c.ExchangeCode? {
      ExchangeTables(s, c.code, c.verifier, c.client, c.redirect, c.resource, c.now);
      ExchangeTraced(l, after.0, c.code, after.1.token.refresh, s.grants[s.codes[c.code].grant].expires);
    } else {
      RefreshTables(s, c.refresh, c.client, c.resource, c.scope, c.now);
      RefreshTraced(l, after.0, c.refresh, after.1.token.refresh, s.grants[s.refreshTokens[c.refresh].grant].expires);
    }
  }

  /** Every transaction keeps the invariant. */
  lemma StepKeeps(l: Ledger, c: Command)
    requires Inv(l)
    ensures Inv(Record(l, c)) && Record(l, c).store == Apply(l.store, c).0
  {
    hide Sound, Traced, Apply;
    StepSound(l.store, c);
    if c.ExchangeCode? || c.Refresh? {
      RedemptionTraced(l, c);
    } else if c.Approve? {
      ApproveStepTraced(l, c);
    } else {
      AdministrationTraced(l, c);
    }
  }

  lemma {:induction false} RunKeeps(l: Ledger, commands: seq<Command>)
    requires Inv(l)
    ensures Inv(Replay(l, commands)) && Replay(l, commands).store == Run(l.store, commands)
    decreases |commands|
  {
    hide Inv, Apply;
    if commands == [] {
    } else {
      StepKeeps(l, commands[0]);
      RunKeeps(Record(l, commands[0]), commands[1..]);
    }
  }
}
