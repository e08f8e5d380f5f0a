/**
 That renewing works: over every run, what the client holds are pairs of its own grants, and a
 renewal that nothing disturbs hands out a token that the server accepts.
 */
module GrantRenewals {
  import opened Outcomes
  import opened Authorization
  import opened AuthorizationInvariants
  import opened AuthorizationTheorems
  import opened ClientTokens
  import opened GrantProtocol
  import opened GrantRuns

  // ----- whatever the client holds was granted to it

  /** Both tokens of the pair are of one grant of this client, with exactly the pair's scope. */
  predicate Granted(s: Store, client: string, p: Pair) {
    && p.refresh in s.refreshTokens && s.refreshTokens[p.refresh].grant in s.grants
    && p.access in s.tokens && s.tokens[p.access].grant == s.refreshTokens[p.refresh].grant
    && var g := s.grants[s.refreshTokens[p.refresh].grant]; g.client == client && g.tools == p.scope
  }

  predicate ControlGranted(s: Store, client: string, control: Control) {
    match control
    case Idle => true
    case Deciding(record) => Granted(s, client, record.tokens)
    case Intended(record) => Granted(s, client, record.tokens)
    case Waiting(record, _) => Granted(s, client, record.tokens)
    case Accepted(next) => Granted(s, client, next.tokens)
  }

  ghost predicate AllGranted(w: World) {
    && (w.vault.Holds? ==> Granted(w.store, w.client, w.vault.record.tokens))
    && ControlGranted(w.store, w.client, w.control)
    && (forall r <- w.replies :: w.replies[r].Some? ==> Granted(w.store, w.client, w.replies[r].value))
    && (forall l <- w.logins :: Granted(w.store, w.client, l.pair))
  }

  lemma GrantedStays(s: Store, s': Store, client: string, p: Pair)
    requires Granted(s, client, p) && Evolves(s, s')
    ensures Granted(s', client, p)
  {
  }

  lemma AllGrantedStay(w: World, s': Store)
    requires AllGranted(w) && Evolves(w.store, s')
    ensures AllGranted(w.(store := s'))
  {
    hide Granted, Evolves;
    forall p | Granted(w.store, w.client, p) ensures Granted(s', w.client, p) {
      GrantedStays(w.store, s', w.client, p);
    }
  }

  /** A pair that the store issues to a client is of a grant of that client. */
  lemma IssuedIsGranted(s: Store, c: Command)
    requires (c.ExchangeCode? || c.Refresh?) && Apply(s, c).1.Issued?
    ensures Granted(Apply(s, c).0, c.client, PairOf(Apply(s, c).1.token))
  {
  }

  lemma ClientStepGranted(w: World, step: Step)
    requires AllGranted(w) && !step.Deliver? && !step.LogIn? && !step.Other?
    ensures AllGranted(Next(w, step))
  {
    hide Granted;
  }

  lemma DeliverGranted(w: World, r: Secret)
    requires Sound(w.store) && AllGranted(w)
    ensures AllGranted(Delivered(w, r))
  {
    var c := Refresh(r, w.client, w.store.resource, None, w.clock);
    hide Sound, Apply;
    StepEvolves(w.store, c);
    AllGrantedStay(w, Apply(w.store, c).0);
    if Apply(w.store, c).1.Issued? { IssuedIsGranted(w.store, c); }
    hide Granted, Evolves;
  }

  lemma LogInGranted(w: World, code: Secret, verifier: Verifier, redirect: Redirect, requestedAt: real)
    requires Sound(w.store) && AllGranted(w)
    ensures AllGranted(LoggedIn(w, code, verifier, redirect, requestedAt))
  {
    var c := ExchangeCode(code, verifier, w.client, redirect, w.store.resource, w.clock);
    hide Sound, Apply;
    StepEvolves(w.store, c);
    AllGrantedStay(w, Apply(w.store, c).0);
    if Apply(w.store, c).1.Issued? { IssuedIsGranted(w.store, c); }
    hide Granted, Evolves;
  }

  lemma StepKeepsGranted(w: World, step: Step)
    requires Sound(w.store) && AllGranted(w)
    ensures Sound(Next(w, step).store) && AllGranted(Next(w, step))
  {
    hide Sound, AllGranted, Apply, Granted;
    match step
    case Deliver(r) =>
      if r in w.wire {
        StepSound(w.store, Refresh(r, w.client, w.store.resource, None, w.clock));
        DeliverGranted(w, r);
      }
    case LogIn(code, verifier, redirect, requestedAt) =>
      if requestedAt <= w.clock {
        StepSound(w.store, ExchangeCode(code, verifier, w.client, redirect, w.store.resource, w.clock));
        LogInGranted(w, code, verifier, redirect, requestedAt);
      }
    case Other(c) =>
      StepSound(w.store, c);
      StepEvolves(w.store, c);
      AllGrantedStay(w, Apply(w.store, c).0);
    case _ => ClientStepGranted(w, step);
  }

  lemma {:induction false} RunKeepsGranted(w: World, steps: seq<Step>)
    requires Sound(w.store) && AllGranted(w)
    ensures AllGranted(RunWorld(w, steps))
    decreases |steps|
  {
    if steps != [] {
      hide Sound, AllGranted, Next;
      StepKeepsGranted(w, steps[0]);
      RunKeepsGranted(Next(w, steps[0]), steps[1..]);
    }
  }

  // ----- when the server answers a renewal

  /** The refresh token and its grant still work then, with a second or more left. */
  predicate Renewable(s: Store, r: Secret, at: real)
    requires r in s.refreshTokens && s.refreshTokens[r].grant in s.grants
  {
    var row := s.refreshTokens[r];
    && (row.expires == 0.0 || at < row.expires)
    && CurrentGrant(s, row.grant, at).Some?
    && Lifetime(s.grants[row.grant].expires, at) >= 1
  }

  /**
   The store answers with a pair exactly when the token is renewable, and then with a fresh one
   that lives as long as it may.
   */
  lemma AnsweredIffRenewable(s: Store, client: string, p: Pair, at: real)
    requires Sound(s) && Granted(s, client, p) && !s.refreshTokens[p.refresh].consumed
    ensures var after := Apply(s, Refresh(p.refresh, client, s.resource, None, at));
            var g := s.refreshTokens[p.refresh].grant;
            && (after.1.Issued? <==> Renewable(s, p.refresh, at))
            && (after.1.Issued? ==>
                  var t, lifetime := after.1.token, Lifetime(s.grants[g].expires, at);
                  && t == AccessToken(s.nextSecret, lifetime, p.scope, s.nextSecret + 1)
                  && after.0.tokens == s.tokens[s.nextSecret := Token(g, at + lifetime as real)]
                  && after.0.grants == s.grants && after.0.devices == s.devices
                  && after.0.resource == s.resource && after.0.knownTools == s.knownTools)
  {
    hide Sound;
  }

  /** A token just issued is accepted as long as it lives. */
  lemma IssuedVerifies(s: Store, s': Store, g: GrantId, at: real, now: real)
    requires g in s.grants && CurrentGrant(s, g, at).Some? && Lifetime(s.grants[g].expires, at) >= 1
    requires s'.tokens == s.tokens[s.nextSecret := Token(g, at + Lifetime(s.grants[g].expires, at) as real)]
    requires s'.grants == s.grants && s'.devices == s.devices && s'.resource == s.resource
             && s'.knownTools == s.knownTools
    requires at <= now < at + Lifetime(s.grants[g].expires, at) as real
    ensures Verify(s', s.nextSecret, s'.resource, now) == CurrentGrant(s, g, at)
  {
  }

  // ----- a renewal that nothing disturbs

  /** The call sends, its request and its reply take their time, and everything it writes is saved. */
  function Undisturbed(rejected: Option<Secret>, r: Secret, there: real, back: real): seq<Step> {
    [Load(rejected), SaveIntent(Written), Send, Tick(there)] + [Deliver(r), Tick(back), Receive, SaveSuccessor(Written)]
  }

  lemma RequestSent(w: World, rejected: Option<Secret>, there: real)
    requires w.control == Idle && there >= 0.0 && Decide(w.vault, rejected, w.clock).Renew?
    ensures var record := Decide(w.vault, rejected, w.clock).record;
            RunWorld(w, [Load(rejected), SaveIntent(Written), Send, Tick(there)])
            == w.(vault := Holds(Pending(record)), control := Waiting(record, w.clock), clock := w.clock + there,
                  wire := w.wire + {record.tokens.refresh}, sent := w.sent + [record.tokens.refresh])
  {
    hide RunWorld;
    FourSteps(w, Load(rejected), SaveIntent(Written), Send, Tick(there));
  }

  /** What the client keeps of the answer to a request on the wire. */
  lemma AnswerKept(w: World, record: Stored, started: real, back: real)
    requires w.control == Waiting(record, started) && w.vault == Holds(Pending(record)) && back >= 0.0
    requires record.tokens.refresh in w.wire
    ensures var r := record.tokens.refresh;
            var after := Apply(w.store, Refresh(r, w.client, w.store.resource, None, w.clock));
            var w' := RunWorld(w, [Deliver(r), Tick(back), Receive, SaveSuccessor(Written)]);
            && w'.store == after.0 && w'.clock == w.clock + back && w'.control == Idle
            && w'.vault == if !after.1.Issued? then Holds(Pending(record))
                           else
                             match Successor(record, PairOf(after.1.token), started, w.clock + back)
                             case None => Holds(Pending(record))
                             case Some(next) => Holds(next)
  {
    hide RunWorld, Apply, Successor;
    FourSteps(w, Deliver(record.tokens.refresh), Tick(back), Receive, SaveSuccessor(Written));
  }

  /** A fresh pair of the same scope is accepted as the successor exactly while it is alive. */
  lemma SuccessorIffAlive(record: Stored, p: Pair, started: real, now: real)
    requires ValidPair(p) && p.scope == record.tokens.scope
    requires p.refresh != record.tokens.refresh && p.access != record.tokens.access
    ensures Successor(record, p, started, now)
            == if now < started + p.expiresIn as real && 0.0 < started + p.expiresIn as real
               then Some(Stored(Ready, p, started + p.expiresIn as real)) else None
  {
  }

  /**
   The renewal of this world succeeds: the token is renewable on arrival, and the pair alive when
   the answer is back.
   */
  predicate Succeeds(w: World, r: Secret, there: real, back: real)
    requires r in w.store.refreshTokens && w.store.refreshTokens[r].grant in w.store.grants
  {
    && Renewable(w.store, r, w.clock + there)
    && var lifetime := Lifetime(w.store.grants[w.store.refreshTokens[r].grant].expires, w.clock + there);
       there + back < lifetime as real && 0.0 < w.clock + lifetime as real
  }

  lemma ReadyIsLive(w: World, rejected: Option<Secret>)
    requires WorldInv(w) && AllGranted(w) && Decide(w.vault, rejected, w.clock).Renew?
    ensures Sound(w.store)
    ensures var tokens := Decide(w.vault, rejected, w.clock).record.tokens;
            && Granted(w.store, w.client, tokens) && !w.store.refreshTokens[tokens.refresh].consumed
            && tokens.access < w.store.nextSecret && tokens.refresh < w.store.nextSecret
  {
    hide Deadlines, Gated, LoginsTimed;
    assert VaultUsable(w) && ServerBehind(w) && Linked(w.store);
  }

  /**
   A renewal that nothing disturbs: exactly when it succeeds, the vault holds a fresh ready pair and
   the caller is handed an access token that the server then accepts, for the same grant; otherwise
   the vault is left pending.
   */
  lemma RenewalOutcome(w: World, rejected: Option<Secret>, there: real, back: real)
    requires WorldInv(w) && AllGranted(w) && w.control == Idle && there >= 0.0 && back >= 0.0
    requires Decide(w.vault, rejected, w.clock).Renew?
    ensures var record := Decide(w.vault, rejected, w.clock).record;
            var r := record.tokens.refresh;
            var w' := RunWorld(w, Undisturbed(rejected, r, there, back));
            && r in w.store.refreshTokens && w.store.refreshTokens[r].grant in w.store.grants
            && w'.control == Idle
            && if !Succeeds(w, r, there, back) then w'.vault == Holds(Pending(record))
               else
                 && w'.vault.Holds? && w'.vault.record.phase.Ready?
                 && w'.vault.record.tokens.scope == record.tokens.scope
                 && Told(w.vault, rejected,
                         Weather(true, w.clock, Written, false, w.clock, Renewed(w'.vault.record.tokens), false,
                                 w'.clock, Written))
                    == HandedOut(w'.vault.record.tokens.access)
                 && Verify(w'.store, w'.vault.record.tokens.access, w'.store.resource, w'.clock)
                    == CurrentGrant(w.store, w.store.refreshTokens[r].grant, w.clock + there)
                 && Verify(w'.store, w'.vault.record.tokens.access, w'.store.resource, w'.clock).Some?
  {
    hide WorldInv, AllGranted, Apply, RunWorld, Successor, CurrentGrant, Sound, Decide, Next, Verify;
    var record := Decide(w.vault, rejected, w.clock).record;
    var r, at := record.tokens.refresh, w.clock + there;
    ReadyIsLive(w, rejected);
    var asked := [Load(rejected), SaveIntent(Written), Send, Tick(there)];
    var answered := [Deliver(r), Tick(back), Receive, SaveSuccessor(Written)];
    RequestSent(w, rejected, there);
    RunConcat(w, asked, answered);
    AnswerKept(RunWorld(w, asked), record, w.clock, back);
    AnsweredIffRenewable(w.store, w.client, record.tokens, at);
    if Renewable(w.store, r, at) {
      var after := Apply(w.store, Refresh(r, w.client, w.store.resource, None, at));
      SuccessorIffAlive(record, PairOf(after.1.token), w.clock, at + back);
      if Succeeds(w, r, there, back) {
        IssuedVerifies(w.store, after.0, w.store.refreshTokens[r].grant, at, at + back);
      }
    }
  }

  lemma StartGranted(w: World)
    requires Start(w)
    ensures AllGranted(w)
  {
    hide Sound;
  }

  /**
   So in every run of the system from a start, a client that is ready to renew does so whenever its
   token is renewable.
   */
  lemma EveryRunCanRenew(w0: World, steps: seq<Step>, rejected: Option<Secret>, there: real, back: real)
    requires Start(w0) && PrivateRun(w0, steps) && OncePerLogin(steps, {}) && there >= 0.0 && back >= 0.0
    requires var w := RunWorld(w0, steps); w.control == Idle && Decide(w.vault, rejected, w.clock).Renew?
    ensures var w := RunWorld(w0, steps);
            var r := Decide(w.vault, rejected, w.clock).record.tokens.refresh;
            var w' := RunWorld(w0, steps + Undisturbed(rejected, r, there, back));
            && r in w.store.refreshTokens && w.store.refreshTokens[r].grant in w.store.grants
            && (Succeeds(w, r, there, back) <==> w'.vault.Holds? && w'.vault.record.phase.Ready?)
            && (Succeeds(w, r, there, back) ==>
                  Verify(w'.store, w'.vault.record.tokens.access, w'.store.resource, w'.clock).Some?)
  {
    hide WorldInv, AllGranted, Sound, RunWorld, Decide, Verify, Undisturbed, FairRun, PrivateRun, OncePerLogin,
      Succeeds;
    StartGranted(w0);
    assert Sound(w0.store);
    OncePerLoginNeverResends(w0, steps);
    StartInv(w0);
    RunKeepsWorld(w0, steps);
    RunKeepsGranted(w0, steps);
    var w := RunWorld(w0, steps);
    RenewalOutcome(w, rejected, there, back);
    RunConcat(w0, steps, Undisturbed(rejected, Decide(w.vault, rejected, w.clock).record.tokens.refresh, there, back));
  }
}
