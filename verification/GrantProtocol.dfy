/**
 The grant store, the network and one renewing client, composed.

 A step is one thing that can happen: a client process advancing inside its lock, dying or
 giving up; a request or a reply crossing the network or vanishing; a login; another party's
 transaction on the store; time passing. Every sequence of steps is a run.
 */
module GrantProtocol {
  import opened Outcomes
  import opened Collections
  import opened Authorization
  import opened AuthorizationInvariants
  import opened AuthorizationTheorems
  import opened ClientTokens

  /** Where the process that holds the connection's lock stands. */
  datatype Control =
    | Idle
    | Deciding(record: Stored)
    | Intended(record: Stored)
    | Waiting(record: Stored, started: real)
    | Accepted(next: Stored)

  datatype Login = Login(pair: Pair, requestedAt: real)

  datatype World = World(
    store: Store,
    client: string,
    clock: real,
    vault: Vault,
    control: Control,
    wire: set<Secret>,
    replies: map<Secret, Option<Pair>>,
    logins: set<Login>,
    mine: set<Secret>,
    sent: seq<Secret>)

  datatype Step =
    | Tick(seconds: real)
    | Load(rejected: Option<Secret>)
    | SaveIntent(intent: Write)
    | Send
    | Receive
    | SaveSuccessor(replacement: Write)
    | Die
    | Deliver(request: Secret)
    | Drop(message: Secret)
    | LogIn(code: Secret, verifier: Verifier, redirect: Redirect, requestedAt: real)
    | Install(login: Login, write: Write)
    | Forget(deleted: bool)
    | Other(command: Command)

  function PairOf(t: AccessToken): Pair {
    Pair(t.access, t.refresh, t.expiresIn, t.scope)
  }

  /** The server answers a refresh request; the reply sets out on its way back. */
  function Delivered(w: World, r: Secret): World {
    var after := Apply(w.store, Refresh(r, w.client, w.store.resource, None, w.clock));
    w.(store := after.0, wire := w.wire - {r},
       replies := w.replies[r := if after.1.Issued? then Some(PairOf(after.1.token)) else None],
       mine := if after.1.Issued? then w.mine + {after.1.token.refresh} else w.mine)
  }

  /** The client redeems a code; the clock was read as `requestedAt` before. */
  function LoggedIn(w: World, code: Secret, verifier: Verifier, redirect: Redirect, requestedAt: real): World {
    var after := Apply(w.store, ExchangeCode(code, verifier, w.client, redirect, w.store.resource, w.clock));
    if !after.1.Issued? then w.(store := after.0)
    else
      w.(store := after.0, mine := w.mine + {after.1.token.refresh},
         logins := w.logins + {Login(PairOf(after.1.token), requestedAt)})
  }

  function Next(w: World, step: Step): World {
    match step
    case Tick(seconds) => if seconds <= 0.0 then w else w.(clock := w.clock + seconds)
    case Load(rejected) =>
      if !w.control.Idle? then w
      else
        var decision := Decide(w.vault, rejected, w.clock);
        if decision.Renew? then w.(control := Deciding(decision.record)) else w
    case SaveIntent(write) =>
      if !w.control.Deciding? then w
      else
        w.(vault := AfterWrite(w.vault, Pending(w.control.record), write),
           control := if write.Written? then Intended(w.control.record) else Idle)
    case Send =>
      if !w.control.Intended? then w
      else
        var r := w.control.record.tokens.refresh;
        w.(control := Waiting(w.control.record, w.clock), wire := w.wire + {r}, sent := w.sent + [r])
    case Receive =>
      if !w.control.Waiting? || w.control.record.tokens.refresh !in w.replies then w
      else
        var reply := w.replies[w.control.record.tokens.refresh];
        if reply.None? then w.(control := Idle)
        else
          var next := Successor(w.control.record, reply.value, w.control.started, w.clock);
          w.(control := if next.None? then Idle else Accepted(next.value))
    case SaveSuccessor(write) =>
      if !w.control.Accepted? then w
      else w.(vault := AfterWrite(w.vault, w.control.next, write), control := Idle)
    case Die => w.(control := Idle)
    case Deliver(r) => if r !in w.wire then w else Delivered(w, r)
    case Drop(message) => w.(wire := w.wire - {message}, replies := w.replies - {message})
    case LogIn(code, verifier, redirect, requestedAt) =>
      if requestedAt > w.clock then w else LoggedIn(w, code, verifier, redirect, requestedAt)
    case Install(login, write) =>
      if !w.control.Idle? || login !in w.logins then w
      else
        var record := Installed(login.pair, login.requestedAt, w.clock);
        if record.None? then w else w.(vault := AfterWrite(w.vault, record.value, write))
    case Forget(deleted) => if w.control.Idle? && deleted then w.(vault := Absent) else w
    case Other(command) => w.(store := Apply(w.store, command).0)
  }

  /** Other parties do not hold this client's refresh tokens. */
  predicate Private(w: World, step: Step) {
    step.Other? && step.command.Refresh? ==> step.command.refresh !in w.mine
  }

  /** Besides, the pair of a login is installed before its token is sent. */
  predicate Fair(w: World, step: Step) {
    Private(w, step) && (step.Install? && step.login in w.logins ==> step.login.pair.refresh !in w.sent)
  }

  predicate FairRun(w: World, steps: seq<Step>)
    decreases |steps|
  {
    steps == [] || (Fair(w, steps[0]) && FairRun(Next(w, steps[0]), steps[1..]))
  }

  function RunWorld(w: World, steps: seq<Step>): World
    decreases |steps|
  {
    if steps == [] then w else RunWorld(Next(w, steps[0]), steps[1..])
  }

  /** A client with nothing saved, beside any sound store. */
  ghost predicate Start(w: World) {
    && Sound(w.store) && w.vault == Absent && w.control == Idle
    && w.wire == {} && w.replies == map[] && w.logins == {} && w.mine == {} && w.sent == []
  }

  // ----- the invariant

  predicate Unsent(w: World, r: Secret) {
    r in w.mine && r !in w.sent
  }

  /** The client's deadline for a pair is no later than the server's. */
  predicate Timed(s: Store, access: Secret, deadline: real) {
    access in s.tokens && deadline <= s.tokens[access].expires
  }

  predicate Unspent(w: World, record: Stored) {
    && ValidPair(record.tokens)
    && Unsent(w, record.tokens.refresh)
    && Timed(w.store, record.tokens.access, record.expiresAt)
  }

  /** The server has not seen a token of ours that is unsent or still on the wire. */
  ghost predicate ServerBehind(w: World) {
    && (forall r <- w.mine ::
          r in w.store.refreshTokens
          && (r !in w.sent || r in w.wire ==> !w.store.refreshTokens[r].consumed))
    && (forall r <- w.wire :: r in w.sent && r !in w.replies)
    && (forall r <- w.replies :: r in w.sent)
  }

  ghost predicate LoginsTimed(w: World) {
    forall l <- w.logins ::
      l.pair.refresh in w.mine && Timed(w.store, l.pair.access, l.requestedAt + l.pair.expiresIn as real)
  }

  predicate VaultUsable(w: World) {
    w.vault.Holds? && w.vault.record.phase.Ready? ==> Unspent(w, w.vault.record)
  }

  predicate ControlUsable(w: World) {
    match w.control
    case Idle => true
    case Deciding(record) => record.phase.Ready? && w.vault == Holds(record)
    case Intended(record) => Unspent(w, record) && w.vault == Holds(Pending(record))
    case Waiting(record, started) =>
      && started <= w.clock && w.vault == Holds(Pending(record))
      && (record.tokens.refresh in w.replies && w.replies[record.tokens.refresh].Some? ==>
            var p := w.replies[record.tokens.refresh].value;
            Unsent(w, p.refresh) && Timed(w.store, p.access, started + p.expiresIn as real))
    case Accepted(next) => Unspent(w, next) && w.vault.Holds? && w.vault.record.phase.RefreshPending?
  }

  ghost predicate WorldInv(w: World) {
    && Sound(w.store)
    && Unique(w.sent) && (forall r <- w.sent :: r in w.mine)
    && ServerBehind(w) && LoginsTimed(w) && VaultUsable(w) && ControlUsable(w)
  }

  // ----- every fair step keeps it

  lemma StoreStepKeeps(w: World, s': Store)
    requires WorldInv(w) && Sound(s') && Evolves(w.store, s')
    requires forall r <- w.mine | r !in w.sent || r in w.wire :: r in s'.refreshTokens && !s'.refreshTokens[r].consumed
    ensures WorldInv(w.(store := s'))
  {
    hide Sound;
  }

  lemma OtherKeeps(w: World, c: Command)
    requires WorldInv(w) && (c.Refresh? ==> c.refresh !in w.mine)
    ensures WorldInv(Next(w, Other(c)))
  {
    hide Evolves, Apply, LoginsTimed, Linked, Deadlines, Gated;
    StepSound(w.store, c);
    StepEvolves(w.store, c);
    forall r <- w.mine | r !in w.sent || r in w.wire
      ensures r in Apply(w.store, c).0.refreshTokens && !Apply(w.store, c).0.refreshTokens[r].consumed
    {
      ConsumedOnlyByRedemption(w.store, c, r);
    }
    StoreStepKeeps(w, Apply(w.store, c).0);
  }

  lemma ClientStepKeeps(w: World, step: Step)
    requires WorldInv(w) && Fair(w, step)
    requires || step.Tick? || step.Load? || step.SaveIntent? || step.Receive? || step.SaveSuccessor? || step.Die?
             || step.Drop? || step.Install? || step.Forget?
    ensures WorldInv(Next(w, step))
  {
    hide Sound;
  }

  lemma SendKeeps(w: World)
    requires WorldInv(w)
    ensures WorldInv(Next(w, Send))
  {
    hide Sound;
  }

  /** A pair that the store has just issued. */
  ghost predicate JustIssued(s: Store, s': Store, t: AccessToken, now: real) {
    && t.refresh !in s.refreshTokens
    && t.refresh in s'.refreshTokens && !s'.refreshTokens[t.refresh].consumed
    && Timed(s', t.access, now + t.expiresIn as real)
  }

  lemma ReplyKeeps(w: World, r: Secret, s: Store, t: Option<AccessToken>)
    requires WorldInv(w) && r in w.sent && r !in w.wire && r !in w.replies
    requires forall q <- w.mine :: q in s.refreshTokens
    requires t.Some? ==> JustIssued(s, w.store, t.value, w.clock)
    ensures WorldInv(w.(replies := w.replies[r := if t.Some? then Some(PairOf(t.value)) else None],
                        mine := if t.Some? then w.mine + {t.value.refresh} else w.mine))
  {
    hide Sound;
  }

  lemma IssuedNow(s: Store, c: Command)
    requires Sound(s) && (c.ExchangeCode? || c.Refresh?) && Apply(s, c).1.Issued?
    ensures JustIssued(s, Apply(s, c).0, Apply(s, c).1.token, c.now)
  {
    hide Deadlines, Gated, CurrentGrant;
    if c.Refresh? {
      RefreshTables(s, c.refresh, c.client, c.resource, c.scope, c.now);
    } else {
      ExchangeTables(s, c.code, c.verifier, c.client, c.redirect, c.resource, c.now);
    }
  }

  /** The server's half of a delivery. */
  lemma ServedKeeps(w: World, c: Command)
    requires WorldInv(w) && c.Refresh? && c.refresh in w.sent && c.refresh !in w.wire
    ensures WorldInv(w.(store := Apply(w.store, c).0))
    ensures Apply(w.store, c).1.Issued? ==> c.now == w.clock ==>
              JustIssued(w.store, Apply(w.store, c).0, Apply(w.store, c).1.token, w.clock)
  {
    hide LoginsTimed, Evolves, JustIssued, Apply, Linked, Deadlines, Gated;
    var s' := Apply(w.store, c).0;
    StepSound(w.store, c);
    StepEvolves(w.store, c);
    forall q <- w.mine | q !in w.sent || q in w.wire
      ensures q in s'.refreshTokens && !s'.refreshTokens[q].consumed
    {
      ConsumedOnlyByRedemption(w.store, c, q);
    }
    StoreStepKeeps(w, s');
    if Apply(w.store, c).1.Issued? { IssuedNow(w.store, c); }
  }

  lemma DeliverKeeps(w: World, r: Secret)
    requires WorldInv(w) && r in w.wire
    ensures WorldInv(Delivered(w, r))
  {
    var c := Refresh(r, w.client, w.store.resource, None, w.clock);
    var w1 := w.(wire := w.wire - {r});
    assert w1 == Next(w, Drop(r)) && r in w.sent && r !in w.replies
           && (forall q <- w.mine :: q in w.store.refreshTokens) by {
      hide Sound;
      assert w.replies - {r} == w.replies;
    }
    hide WorldInv, JustIssued, Apply, Next;
    ClientStepKeeps(w, Drop(r));
    ServedKeeps(w1, c);
    ReplyKeeps(w1.(store := Apply(w.store, c).0), r, w.store,
               if Apply(w.store, c).1.Issued? then Some(Apply(w.store, c).1.token) else None);
  }

  lemma LoginKeeps(w: World, s: Store, t: AccessToken, requestedAt: real)
    requires WorldInv(w) && requestedAt <= w.clock
    requires forall q <- w.mine :: q in s.refreshTokens
    requires JustIssued(s, w.store, t, w.clock)
    ensures WorldInv(w.(mine := w.mine + {t.refresh}, logins := w.logins + {Login(PairOf(t), requestedAt)}))
  {
    hide Sound;
  }

  lemma LogInKeeps(w: World, code: Secret, verifier: Verifier, redirect: Redirect, requestedAt: real)
    requires WorldInv(w) && requestedAt <= w.clock
    ensures WorldInv(LoggedIn(w, code, verifier, redirect, requestedAt))
  {
    var c := ExchangeCode(code, verifier, w.client, redirect, w.store.resource, w.clock);
    assert Sound(w.store) && forall q <- w.mine :: q in w.store.refreshTokens by { hide Sound; }
    assert Next(w, Other(c)) == w.(store := Apply(w.store, c).0);
    hide WorldInv, JustIssued, Apply, Sound, Next;
    OtherKeeps(w, c);
    if Apply(w.store, c).1.Issued? {
      IssuedNow(w.store, c);
      LoginKeeps(w.(store := Apply(w.store, c).0), w.store, Apply(w.store, c).1.token, requestedAt);
    }
  }

  lemma StepKeepsWorld(w: World, step: Step)
    requires WorldInv(w) && Fair(w, step)
    ensures WorldInv(Next(w, step))
  {
    hide WorldInv, Apply, Delivered, LoggedIn;
    match step
    case Send => SendKeeps(w);
    case Deliver(r) => if r in w.wire { DeliverKeeps(w, r); }
    case LogIn(code, verifier, redirect, requestedAt) =>
      if requestedAt <= w.clock { LogInKeeps(w, code, verifier, redirect, requestedAt); }
    case Other(c) => OtherKeeps(w, c);
    case _ => ClientStepKeeps(w, step);
  }

  lemma {:induction false} RunKeepsWorld(w: World, steps: seq<Step>)
    requires WorldInv(w) && FairRun(w, steps)
    ensures WorldInv(RunWorld(w, steps))
    decreases |steps|
  {
    hide WorldInv, Next, Fair;
    if steps != [] {
      StepKeepsWorld(w, steps[0]);
      RunKeepsWorld(Next(w, steps[0]), steps[1..]);
    }
  }

  // ----- what every run of the composed system guarantees

  lemma StartInv(w: World)
    requires Start(w)
    ensures WorldInv(w)
  {
    hide Sound;
  }

  /** No refresh token is ever sent twice, whatever is lost, delayed, written or killed on the way. */
  lemma NeverSentTwice(w: World, steps: seq<Step>)
    requires Start(w) && FairRun(w, steps)
    ensures Unique(RunWorld(w, steps).sent)
  {
    StartInv(w);
    RunKeepsWorld(w, steps);
  }

  /** So no request of this client ever reaches the server's replay branch, and none revokes a grant. */
  lemma NeverReplays(w: World, steps: seq<Step>, r: Secret, g: GrantId)
    requires Start(w) && FairRun(w, steps) && r in RunWorld(w, steps).wire
    ensures var w' := RunWorld(w, steps);
            && r in w'.store.refreshTokens && !w'.store.refreshTokens[r].consumed
            && (g in w'.store.grants ==>
                  && g in Next(w', Deliver(r)).store.grants
                  && (Next(w', Deliver(r)).store.grants[g].revoked <==> w'.store.grants[g].revoked))
  {
    hide Linked, Deadlines, Gated, Apply;
    StartInv(w);
    RunKeepsWorld(w, steps);
    var w' := RunWorld(w, steps);
    var c := Refresh(r, w'.client, w'.store.resource, None, w'.clock);
    assert r in w'.mine;
    if g in w'.store.grants {
      RevokedExactlyBy(w'.store, c, g);
    }
  }

  /**
   With equal clocks, a token used without renewal passes every time check of the server:
   it verifies unless its grant was revoked or its device or permissions changed.
   */
  lemma HandedOutTokenIsTimely(w: World, steps: seq<Step>, rejected: Option<Secret>)
    requires Start(w) && FairRun(w, steps)
    requires Decide(RunWorld(w, steps).vault, rejected, RunWorld(w, steps).clock).Use?
    ensures var w' := RunWorld(w, steps);
            var s, token := w'.store, Decide(w'.vault, rejected, w'.clock).token;
            && token in s.tokens && w'.clock < s.tokens[token].expires
            && s.tokens[token].grant in s.grants
            && var g := s.grants[s.tokens[token].grant];
               && (g.expires == 0.0 || w'.clock < g.expires)
               && g.device in s.devices
               && (Verify(s, token, s.resource, w'.clock).Some? <==>
                     && !g.revoked && s.devices[g.device].active && s.devices[g.device].owner == g.owner
                     && g.tools <= s.devices[g.device].tools && g.tools <= s.knownTools)
  {
    hide Gated, ServerBehind, LoginsTimed;
    StartInv(w);
    RunKeepsWorld(w, steps);
  }

  // ----- why a pair may be installed only before its refresh token was sent

  lemma ReplayRevokes(w: World, r: Secret)
    requires r in w.wire
    ensures r in w.store.refreshTokens && w.store.refreshTokens[r].consumed
            && w.store.refreshTokens[r].grant in w.store.grants
            && w.store.grants[w.store.refreshTokens[r].grant].client == w.client ==>
              Next(w, Deliver(r)).store == RevokeGrant(w.store, w.store.refreshTokens[r].grant)
  {
  }

  lemma FourSteps(w: World, a: Step, b: Step, c: Step, d: Step)
    ensures RunWorld(w, [a, b, c, d]) == Next(Next(Next(Next(w, a), b), c), d)
  {
    hide Next;
    var s := [a, b, c, d];
    assert s[1..] == [b, c, d] && s[1..][1..] == [c, d] && s[1..][1..][1..] == [d] && [d][1..] == [];
    assert RunWorld(w, s) == RunWorld(Next(w, a), [b, c, d]);
    assert RunWorld(Next(w, a), [b, c, d]) == RunWorld(Next(Next(w, a), b), [c, d]);
    assert [c, d][1..] == [d];
    var w2 := Next(Next(w, a), b);
    assert RunWorld(w2, [c, d]) == RunWorld(Next(w2, c), [d]) == RunWorld(Next(Next(w2, c), d), []);
  }

  /** Reinstalling a sent pair lets the next renewal send its token again, and a consumed one then revokes the grant. */
  lemma ReinstalledPairIsResent(w: World, login: Login)
    requires WorldInv(w) && w.control == Idle && login in w.logins
    requires Installed(login.pair, login.requestedAt, w.clock).Some? && login.pair.refresh in w.sent
    ensures var steps := [Install(login, Written), Load(Some(login.pair.access)), SaveIntent(Written), Send];
            var r, w' := login.pair.refresh, RunWorld(w, steps);
            && !Unique(w'.sent) && r in w'.wire
            && (r in w.store.refreshTokens && w.store.refreshTokens[r].consumed
                && w.store.refreshTokens[r].grant in w.store.grants
                && w.store.grants[w.store.refreshTokens[r].grant].client == w.client ==>
                  Next(w', Deliver(r)).store == RevokeGrant(w.store, w.store.refreshTokens[r].grant))
  {
    hide WorldInv, Apply;
    var r := login.pair.refresh;
    var w1 := Next(w, Install(login, Written));
    var w2 := Next(w1, Load(Some(login.pair.access)));
    var w3 := Next(w2, SaveIntent(Written));
    var w4 := Next(w3, Send);
    assert RunWorld(w, [Install(login, Written), Load(Some(login.pair.access)), SaveIntent(Written), Send]) == w4 by {
      hide Next;
      FourSteps(w, Install(login, Written), Load(Some(login.pair.access)), SaveIntent(Written), Send);
    }
    var i :| 0 <= i < |w.sent| && w.sent[i] == r;
    assert w4.sent[i] == r && w4.sent[|w.sent|] == r;
    ReplayRevokes(w4, r);
  }

  /** Nothing is ever sent twice from here on. */
  ghost predicate NeverResends(w: World) {
    forall steps :: FairRun(w, steps) ==> Unique(RunWorld(w, steps).sent)
  }

  lemma ThreeFair(w: World, a: Step, b: Step, c: Step)
    requires forall st <- [a, b, c] :: !st.Other? && !st.Install?
    ensures FairRun(w, [a, b, c])
  {
    hide Next;
    var steps := [a, b, c];
    assert steps[0] in steps && steps[1] in steps && steps[2] in steps;
    assert steps[1..] == [b, c] && [b, c][1..] == [c] && [c][1..] == [];
    assert FairRun(Next(Next(Next(w, a), b), c), []);
    assert FairRun(Next(Next(w, a), b), [c]);
    assert FairRun(Next(w, a), [b, c]);
  }

  /**
   Of the installs whose write lands, exactly those of unsent pairs keep the invariant, and exactly
   those leave a world in which nothing is ever sent twice.
   */
  lemma InstallSafeIffUnsent(w: World, login: Login, write: Write)
    requires WorldInv(w) && w.control == Idle && login in w.logins
    requires Installed(login.pair, login.requestedAt, w.clock).Some? && !write.FailedAndLost?
    ensures WorldInv(Next(w, Install(login, write))) <==> login.pair.refresh !in w.sent
    ensures NeverResends(Next(w, Install(login, write))) <==> login.pair.refresh !in w.sent
  {
    var w' := Next(w, Install(login, write));
    assert w' == Next(w, Install(login, Written));
    if login.pair.refresh !in w.sent {
      ClientStepKeeps(w, Install(login, write));
      hide WorldInv, Next;
      forall steps | FairRun(w', steps) ensures Unique(RunWorld(w', steps).sent) { RunKeepsWorld(w', steps); }
    } else {
      assert !WorldInv(w') by {
        hide Sound;
        assert !VaultUsable(w');
      }
      hide WorldInv, Next;
      var a, b, c := Load(Some(login.pair.access)), SaveIntent(Written), Send;
      ReinstalledPairIsResent(w, login);
      assert [Install(login, Written), a, b, c][1..] == [a, b, c];
      ThreeFair(w', a, b, c);
      assert !Unique(RunWorld(w', [a, b, c]).sent);
    }
  }
}
