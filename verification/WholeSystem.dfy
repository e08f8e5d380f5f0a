/**
 The consent desk, the grant store and the renewing client together, sharing one store.

 What the client does is, to the desk, transactions by others; what the desk does is that to the
 client. So every run of the whole is a run of each, and what each promises holds together.
 */
module WholeSystem {
  import opened Outcomes
  import opened Authorization
  import opened AuthorizationInvariants
  import opened ClientTokens
  import opened ConsentDesk
  import opened ConsentedTokens
  import opened GrantRenewals
  import AttemptRuns
  import Collections
  import D = ConsentRuns
  import G = GrantProtocol
  import R = GrantRuns

  datatype Whole = Whole(desk: D.World, client: G.World)

  datatype Move = AtDesk(deskStep: D.Step) | AtClient(clientStep: G.Step)

  /** The transaction that a step of the client or its network makes. */
  function CommandOf(w: G.World, st: G.Step): Option<Command> {
    match st
    case Deliver(r) => if r in w.wire then Some(Refresh(r, w.client, w.store.resource, None, w.clock)) else None
    case LogIn(code, verifier, redirect, requestedAt) =>
      if requestedAt > w.clock then None
      else Some(ExchangeCode(code, verifier, w.client, redirect, w.store.resource, w.clock))
    case Other(c) => Some(c)
    case _ => None
  }

  /** The transaction that a step at the desk makes: an approval, somebody's, or the reopening of a restart. */
  function CommandAt(w: D.World, st: D.Step): Option<Command> {
    match st
    case Resume(flight, verification, guard, _, at) =>
      if flight !in w.flying then None
      else
        var ticket := w.flying[flight];
        var r := ResumeDecision(w.desk, w.store, ticket, verification, guard, D.Later(w, st.wait), at);
        if D.CodeOf(r.2).Some? then Some(Approval(ticket.record, at)) else None
    case Transact(c) => Some(c)
    case Restart(knownTools) => Some(Reopen(knownTools))
    case _ => None
  }

  function SeenByDesk(w: Whole, m: Move): seq<D.Step> {
    match m
    case AtDesk(st) => [st]
    case AtClient(st) =>
      var c := CommandOf(w.client, st);
      if c.Some? then [D.Transact(c.value)] else []
  }

  function SeenByClient(w: Whole, m: Move): seq<G.Step> {
    match m
    case AtClient(st) => [st]
    case AtDesk(st) =>
      var c := CommandAt(w.desk, st);
      if c.Some? then [G.Other(c.value)] else []
  }

  function Next(w: Whole, m: Move): Whole {
    Whole(D.RunWorld(w.desk, SeenByDesk(w, m)), G.RunWorld(w.client, SeenByClient(w, m)))
  }

  function RunWhole(w: Whole, moves: seq<Move>): Whole
    decreases |moves|
  {
    if moves == [] then w else RunWhole(Next(w, moves[0]), moves[1..])
  }

  /** A new store, an empty desk, and a client with nothing saved, at any time of day. */
  function Start(resource: string, knownTools: set<string>, client: string, clock: real): Whole {
    var s := Empty(resource, knownTools);
    Whole(D.Start(s), G.World(s, client, clock, Absent, G.Idle, {}, map[], {}, {}, []))
  }

  // ----- both work on one store

  lemma ClientStore(w: G.World, st: G.Step)
    ensures G.Next(w, st).store
            == if CommandOf(w, st).Some? then Apply(w.store, CommandOf(w, st).value).0 else w.store
  {
    hide Apply, Decide, Successor, Installed;
  }

  lemma DeskStore(w: D.World, st: D.Step)
    ensures D.Next(w, st).store
            == if CommandAt(w, st).Some? then Apply(w.store, CommandAt(w, st).value).0 else w.store
  {
    hide Apply, ResumeDecision, SubmitDecision, OpenConsent;
    if st.Resume? && st.flight in w.flying {
      D.ResumeFacts(w.desk, w.store, w.flying[st.flight], st.verification, st.guard, D.Later(w, st.wait), st.at);
    }
  }

  lemma OtherStore(w: G.World, c: Command)
    ensures G.RunWorld(w, [G.Other(c)]).store == Apply(w.store, c).0
  {
    hide Apply;
    R.OneStep(w, G.Other(c));
  }

  lemma TransactStore(w: D.World, c: Command)
    ensures D.RunWorld(w, [D.Transact(c)]).store == Apply(w.store, c).0
  {
    hide Apply;
    AttemptRuns.OneStep(w, D.Transact(c));
  }

  lemma MoveShares(w: Whole, m: Move)
    requires w.desk.store == w.client.store
    ensures Next(w, m).desk.store == Next(w, m).client.store
  {
    hide Apply, D.Next, G.Next, CommandOf, CommandAt;
    match m
    case AtDesk(st) =>
      DeskStore(w.desk, st);
      AttemptRuns.OneStep(w.desk, st);
      if CommandAt(w.desk, st).Some? {
        OtherStore(w.client, CommandAt(w.desk, st).value);
      }
    case AtClient(st) =>
      ClientStore(w.client, st);
      R.OneStep(w.client, st);
      if CommandOf(w.client, st).Some? {
        TransactStore(w.desk, CommandOf(w.client, st).value);
      }
  }

  lemma {:induction false} RunShares(w: Whole, moves: seq<Move>)
    requires w.desk.store == w.client.store
    ensures RunWhole(w, moves).desk.store == RunWhole(w, moves).client.store
    decreases |moves|
  {
    if moves != [] {
      hide Next;
      MoveShares(w, moves[0]);
      RunShares(Next(w, moves[0]), moves[1..]);
    }
  }

  // ----- every run of the whole is a run of each

  function DeskSteps(w: Whole, moves: seq<Move>): seq<D.Step>
    decreases |moves|
  {
    if moves == [] then [] else SeenByDesk(w, moves[0]) + DeskSteps(Next(w, moves[0]), moves[1..])
  }

  function ClientSteps(w: Whole, moves: seq<Move>): seq<G.Step>
    decreases |moves|
  {
    if moves == [] then [] else SeenByClient(w, moves[0]) + ClientSteps(Next(w, moves[0]), moves[1..])
  }

  lemma {:induction false} RunProjects(w: Whole, moves: seq<Move>)
    ensures RunWhole(w, moves).desk == D.RunWorld(w.desk, DeskSteps(w, moves))
    ensures RunWhole(w, moves).client == G.RunWorld(w.client, ClientSteps(w, moves))
    decreases |moves|
  {
    hide SeenByDesk, SeenByClient, D.Next, G.Next;
    if moves != [] {
      var w' := Next(w, moves[0]);
      RunProjects(w', moves[1..]);
      AttemptRuns.RunConcat(w.desk, SeenByDesk(w, moves[0]), DeskSteps(w', moves[1..]));
      R.RunConcat(w.client, SeenByClient(w, moves[0]), ClientSteps(w', moves[1..]));
    }
  }

  /** No transaction approves a grant past the desk. */
  predicate ApprovedAtDesk(moves: seq<Move>) {
    forall m <- moves ::
      && (m.AtDesk? && m.deskStep.Transact? ==> !m.deskStep.command.Approve?)
      && (m.AtClient? && m.clientStep.Other? ==> !m.clientStep.command.Approve?)
  }

  lemma {:induction false} ProjectsToDeskOnly(w: Whole, moves: seq<Move>)
    requires ApprovedAtDesk(moves)
    ensures DeskOnly(DeskSteps(w, moves))
    decreases |moves|
  {
    if moves != [] {
      hide Next;
      assert moves[0] in moves;
      ProjectsToDeskOnly(Next(w, moves[0]), moves[1..]);
    }
  }

  // ----- what holds of the whole

  lemma {:induction false} RunKeepsClient(w: G.World, steps: seq<G.Step>)
    ensures G.RunWorld(w, steps).client == w.client
    decreases |steps|
  {
    if steps != [] {
      hide Apply, Decide, Successor, Installed;
      RunKeepsClient(G.Next(w, steps[0]), steps[1..]);
    }
  }

  lemma StartJoins(resource: string, knownTools: set<string>, client: string, clock: real)
    ensures var w := Start(resource, knownTools, client, clock);
            && w.desk.store == w.client.store && w.client.client == client
            && Sound(w.desk.store) && G.Start(w.client)
            && AllConsented(w.desk.store, w.desk.decided) && AllGranted(w.client)
  {
    EmptyInv(resource, knownTools);
    hide Sound;
  }

  /** A token used without renewal is of a grant that a decision opened, for this client and the scope on record. */
  ghost predicate UsedAsConsented(w: Whole, rejected: Option<Secret>) {
    var s, decision := w.client.store, Decide(w.client.vault, rejected, w.client.clock);
    decision.Use? ==>
      var token := decision.token;
      && token in s.tokens && s.tokens[token].grant in s.grants
      && var g := s.tokens[token].grant;
         && s.grants[g].client == w.client.client && w.client.vault.Holds?
         && s.grants[g].tools == w.client.vault.record.tokens.scope
         && Consented(s, w.desk.decided, g)
  }

  lemma GrantedIsConsented(w: Whole, rejected: Option<Secret>)
    requires AllConsented(w.client.store, w.desk.decided) && AllGranted(w.client)
    ensures UsedAsConsented(w, rejected)
  {
    hide Consented;
  }

  /**
   It passes every time check of the server, and is accepted unless the grant was revoked or its
   device or permissions changed.
   */
  ghost predicate UsedInTime(w: G.World, rejected: Option<Secret>) {
    var s, decision := w.store, Decide(w.vault, rejected, w.clock);
    decision.Use? ==>
      var token := decision.token;
      && token in s.tokens && w.clock < s.tokens[token].expires && s.tokens[token].grant in s.grants
      && var g := s.grants[s.tokens[token].grant];
         && g.device in s.devices
         && (Verify(s, token, s.resource, w.clock).Some? <==>
               && !g.revoked && s.devices[g.device].active && s.devices[g.device].owner == g.owner
               && g.tools <= s.devices[g.device].tools && g.tools <= s.knownTools)
  }

  lemma RunIsInTime(w: G.World, steps: seq<G.Step>, rejected: Option<Secret>)
    requires G.Start(w) && G.FairRun(w, steps)
    ensures UsedInTime(G.RunWorld(w, steps), rejected)
  {
    hide G.Start, G.FairRun, G.RunWorld, Verify, Decide;
    if Decide(G.RunWorld(w, steps).vault, rejected, G.RunWorld(w, steps).clock).Use? {
      G.HandedOutTokenIsTimely(w, steps, rejected);
    }
  }

  /**
   With approval at the desk alone, others not holding the client's refresh tokens, and no login
   installed twice: whatever happens, no refresh token is sent twice; and a token that the client
   uses without renewal is of a grant of that very client which a verified and timely decision of
   the owner opened, for exactly the scope on record, and is in time for the server.
   */
  lemma UsedTokenWasConsented(resource: string, knownTools: set<string>, client: string, clock: real,
                              moves: seq<Move>, rejected: Option<Secret>)
    requires var w0 := Start(resource, knownTools, client, clock);
             && ApprovedAtDesk(moves)
             && R.PrivateRun(w0.client, ClientSteps(w0, moves)) && R.OncePerLogin(ClientSteps(w0, moves), {})
    ensures var w := RunWhole(Start(resource, knownTools, client, clock), moves);
            && w.desk.store == w.client.store && w.client.client == client
            && Collections.Unique(w.client.sent)
            && UsedAsConsented(w, rejected) && UsedInTime(w.client, rejected)
  {
    var w0 := Start(resource, knownTools, client, clock);
    var w := RunWhole(w0, moves);
    StartJoins(resource, knownTools, client, clock);
    hide Start, Sound, RunWhole, G.RunWorld, D.RunWorld, G.Start, R.PrivateRun, R.OncePerLogin, G.FairRun, AllConsented,
      AllGranted, ApprovedAtDesk, DeskOnly, UsedAsConsented, UsedInTime, DeskSteps, ClientSteps;
    RunProjects(w0, moves);
    RunShares(w0, moves);
    ProjectsToDeskOnly(w0, moves);
    RunKeepsConsent(w0.desk, DeskSteps(w0, moves));
    R.OncePerLoginNeverResends(w0.client, ClientSteps(w0, moves));
    RunKeepsClient(w0.client, ClientSteps(w0, moves));
    RunKeepsGranted(w0.client, ClientSteps(w0, moves));
    GrantedIsConsented(w, rejected);
    RunIsInTime(w0.client, ClientSteps(w0, moves), rejected);
  }
}
