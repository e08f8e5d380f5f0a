/**
 Runs of the composed system: every call of the client is one, installing each login once makes
 them fair, and installing one again is how a run can go wrong.
 */
module GrantRuns {
  import opened Outcomes
  import opened Collections
  import opened Authorization
  import opened AuthorizationInvariants
  import opened AuthorizationTheorems
  import opened ClientTokens
  import opened GrantProtocol

  // ----- a call of the client is a run of the system

  lemma {:induction false} RunConcat(w: World, a: seq<Step>, b: seq<Step>)
    ensures RunWorld(w, a + b) == RunWorld(RunWorld(w, a), b)
    decreases |a|
  {
    hide Next;
    if a == [] {
      assert a + b == b;
    } else {
      RunConcat(Next(w, a[0]), a[1..], b);
      assert (a + b)[1..] == a[1..] + b;
    }
  }

  /** Nothing that the client does. */
  predicate Elsewhere(step: Step) {
    step.Tick? || step.Deliver? || step.Drop? || step.LogIn? || step.Other?
  }

  lemma {:induction false} ElsewhereKeepsClient(w: World, steps: seq<Step>)
    requires forall st <- steps :: Elsewhere(st)
    ensures var w' := RunWorld(w, steps); w'.vault == w.vault && w'.control == w.control && w'.sent == w.sent
    decreases |steps|
  {
    if steps != [] {
      hide Apply;
      assert Elsewhere(steps[0]);
      ElsewhereKeepsClient(Next(w, steps[0]), steps[1..]);
    }
  }

  function UntilSent(rejected: Option<Secret>, weather: Weather): seq<Step> {
    [Load(rejected), SaveIntent(weather.intent), Tick(weather.started - weather.now), Send]
  }

  /** The steps of one call, with whatever happens elsewhere while it waits for its reply. */
  function CallSteps(rejected: Option<Secret>, weather: Weather, elsewhere: seq<Step>): seq<Step> {
    if !weather.readable then []
    else if weather.intent != Written || weather.diesAfterIntent then [Load(rejected), SaveIntent(weather.intent), Die]
    else
      UntilSent(rejected, weather) + elsewhere +
      if weather.diesWaiting || !weather.response.Renewed? then [Die] else [Receive, SaveSuccessor(weather.replacement)]
  }

  /** A pair that the weather brings to a call is a reply that came by the time it says. */
  ghost predicate Arrives(w: World, rejected: Option<Secret>, weather: Weather, elsewhere: seq<Step>) {
    var decision := Decide(w.vault, rejected, weather.now);
    weather.response.Renewed? && decision.Renew? ==>
      var w' := RunWorld(RunWorld(w, UntilSent(rejected, weather)), elsewhere);
      && w'.clock == weather.arrived && decision.record.tokens.refresh in w'.replies
      && w'.replies[decision.record.tokens.refresh] == Some(weather.response.pair)
  }

  lemma UntilSentMeans(w: World, rejected: Option<Secret>, weather: Weather)
    requires w.control == Idle && w.clock == weather.now <= weather.started && weather.intent == Written
    ensures var w' := RunWorld(w, UntilSent(rejected, weather));
            var decision := Decide(w.vault, rejected, weather.now);
            if !decision.Renew? then w'.vault == w.vault && w'.control == Idle && w'.sent == w.sent
            else
              && w'.vault == Holds(Pending(decision.record)) && w'.sent == w.sent + [decision.record.tokens.refresh]
              && w'.control == Waiting(decision.record, weather.started)
  {
    hide RunWorld;
    FourSteps(w, Load(rejected), SaveIntent(weather.intent), Tick(weather.started - weather.now), Send);
  }

  lemma TwoSteps(w: World, a: Step, b: Step)
    ensures RunWorld(w, [a, b]) == Next(Next(w, a), b)
  {
    hide Next;
    assert [a, b][1..] == [b] && [b][1..] == [];
    assert RunWorld(Next(w, a), [b]) == RunWorld(Next(Next(w, a), b), []);
  }

  lemma OneStep(w: World, a: Step)
    ensures RunWorld(w, [a]) == Next(w, a)
  {
    hide Next;
    assert [a][1..] == [];
  }

  /** What the actions of a call amount to, by how far it gets. */
  lemma CallAmounts(vault: Vault, rejected: Option<Secret>, weather: Weather)
    requires weather.readable && Decide(vault, rejected, weather.now).Renew?
    ensures var record := Decide(vault, rejected, weather.now).record;
            var actions := Call(vault, rejected, weather);
            if weather.intent != Written || weather.diesAfterIntent then
              VaultAfter(vault, actions) == AfterWrite(vault, Pending(record), weather.intent) && SentIn(actions) == []
            else
              && SentIn(actions) == [record.tokens.refresh]
              && VaultAfter(vault, actions)
                 == if weather.diesWaiting || !weather.response.Renewed? then Holds(Pending(record))
                    else
                      match Successor(record, weather.response.pair, weather.started, weather.arrived)
                      case None => Holds(Pending(record))
                      case Some(next) => AfterWrite(Holds(Pending(record)), next, weather.replacement)
  {
    var actions := Call(vault, rejected, weather);
    assert actions[..1][..0] == [] && SentIn(actions[..1]) == [];
    if |actions| == 1 {
      assert actions[..1] == actions;
    } else {
      var two := actions[..2];
      assert two[..1] == actions[..1] && two == [actions[0], actions[1]];
      assert VaultAfter(vault, two) == Holds(Pending(Decide(vault, rejected, weather.now).record));
      assert |actions| == 2 ==> two == actions;
      assert |actions| == 3 ==> actions[..|actions| - 1] == two;
    }
  }

  lemma NoActions(vault: Vault, rejected: Option<Secret>, weather: Weather)
    requires !weather.readable || !Decide(vault, rejected, weather.now).Renew?
    ensures Call(vault, rejected, weather) == []
  {
  }

  lemma NoSteps(w: World)
    ensures RunWorld(w, []) == w
  {
  }

  /** A call whose intent is not saved, or which dies with it saved. */
  lemma CutShort(w: World, rejected: Option<Secret>, weather: Weather)
    requires w.control == Idle && w.clock == weather.now && (weather.intent != Written || weather.diesAfterIntent)
    ensures var w' := RunWorld(w, [Load(rejected), SaveIntent(weather.intent), Die]);
            var decision := Decide(w.vault, rejected, weather.now);
            && w'.control == Idle && w'.sent == w.sent
            && w'.vault == if decision.Renew? then AfterWrite(w.vault, Pending(decision.record), weather.intent)
                           else w.vault
  {
    hide RunWorld, AfterWrite;
    assert [Load(rejected), SaveIntent(weather.intent), Die] == [Load(rejected), SaveIntent(weather.intent)] + [Die];
    RunConcat(w, [Load(rejected), SaveIntent(weather.intent)], [Die]);
    TwoSteps(w, Load(rejected), SaveIntent(weather.intent));
    OneStep(RunWorld(w, [Load(rejected), SaveIntent(weather.intent)]), Die);
  }

  /** A call that sends its token, from there to its end. */
  lemma Waited(w: World, rejected: Option<Secret>, weather: Weather, elsewhere: seq<Step>)
    requires w.control == Idle && w.clock == weather.now <= weather.started
    requires weather.readable && weather.intent == Written && !weather.diesAfterIntent
    requires (forall st <- elsewhere :: Elsewhere(st)) && Arrives(w, rejected, weather, elsewhere)
    ensures var w' := RunWorld(w, CallSteps(rejected, weather, elsewhere));
            var decision := Decide(w.vault, rejected, weather.now);
            && w'.control == Idle
            && if !decision.Renew? then w'.vault == w.vault && w'.sent == w.sent
               else
                 && w'.sent == w.sent + [decision.record.tokens.refresh]
                 && w'.vault
                    == if weather.diesWaiting || !weather.response.Renewed? then Holds(Pending(decision.record))
                       else
                         match Successor(decision.record, weather.response.pair, weather.started, weather.arrived)
                         case None => Holds(Pending(decision.record))
                         case Some(next) => AfterWrite(Holds(Pending(decision.record)), next, weather.replacement)
  {
    hide RunWorld, UntilSent, AfterWrite, Successor, Decide;
    var sent := UntilSent(rejected, weather);
    var tail :=
      if weather.diesWaiting || !weather.response.Renewed? then [Die]
      else [Receive, SaveSuccessor(weather.replacement)];
    UntilSentMeans(w, rejected, weather);
    RunConcat(w, sent + elsewhere, tail);
    RunConcat(w, sent, elsewhere);
    ElsewhereKeepsClient(RunWorld(w, sent), elsewhere);
    var w2 := RunWorld(RunWorld(w, sent), elsewhere);
    OneStep(w2, Die);
    TwoSteps(w2, Receive, SaveSuccessor(weather.replacement));
  }

  lemma NothingDone(vault: Vault)
    ensures VaultAfter(vault, []) == vault && SentIn([]) == []
  {
  }

  /**
   Every call for a token, whatever its weather, changes the vault and sends exactly as the steps of
   the composed system do: load, save the intent, send, wait, receive, save the successor.
   */
  lemma CallIsARun(w: World, rejected: Option<Secret>, weather: Weather, elsewhere: seq<Step>)
    requires w.control == Idle && w.clock == weather.now <= weather.started
    requires (forall st <- elsewhere :: Elsewhere(st)) && Arrives(w, rejected, weather, elsewhere)
    ensures var w' := RunWorld(w, CallSteps(rejected, weather, elsewhere));
            var actions := Call(w.vault, rejected, weather);
            w'.vault == VaultAfter(w.vault, actions) && w'.sent == w.sent + SentIn(actions) && w'.control == Idle
  {
    hide RunWorld, VaultAfter, SentIn, UntilSent, Next, Call, AfterWrite, Successor;
    NothingDone(w.vault);
    if weather.readable && Decide(w.vault, rejected, weather.now).Renew? { CallAmounts(w.vault, rejected, weather); }
    if !weather.readable || !Decide(w.vault, rejected, weather.now).Renew? { NoActions(w.vault, rejected, weather); }
    if !weather.readable {
      NoSteps(w);
    } else if weather.intent != Written || weather.diesAfterIntent {
      CutShort(w, rejected, weather);
    } else {
      Waited(w, rejected, weather, elsewhere);
    }
  }

  // ----- each login installed once

  predicate PrivateRun(w: World, steps: seq<Step>)
    decreases |steps|
  {
    steps == [] || (Private(w, steps[0]) && PrivateRun(Next(w, steps[0]), steps[1..]))
  }

  function Installs(step: Step): set<Login> {
    if step.Install? then {step.login} else {}
  }

  /** No login is installed twice, nor one that was installed before. */
  predicate OncePerLogin(steps: seq<Step>, before: set<Login>)
    decreases |steps|
  {
    steps == [] || (Installs(steps[0]) !! before && OncePerLogin(steps[1..], before + Installs(steps[0])))
  }

  predicate InControl(control: Control, r: Secret) {
    match control
    case Idle => false
    case Deciding(record) => record.tokens.refresh == r
    case Intended(record) => record.tokens.refresh == r
    case Waiting(record, _) => record.tokens.refresh == r
    case Accepted(next) => next.tokens.refresh == r
  }

  predicate InReply(replies: map<Secret, Option<Pair>>, r: Secret) {
    exists q <- replies :: replies[q].Some? && replies[q].value.refresh == r
  }

  /** The token was sent, or is where the client might send it from. */
  predicate Touched(w: World, r: Secret) {
    || r in w.sent || (w.vault.Holds? && w.vault.record.tokens.refresh == r) || InControl(w.control, r)
    || InReply(w.replies, r)
  }

  /** A login not yet installed has a token of its own that the client has not touched. */
  ghost predicate OnceInv(w: World, before: set<Login>) {
    && (forall r :: Touched(w, r) ==> r in w.mine)
    && (forall l <- w.logins :: l.pair.refresh in w.mine && (l in before || !Touched(w, l.pair.refresh)))
    && (forall l, m :: l in w.logins && m in w.logins && l != m ==> l.pair.refresh != m.pair.refresh)
  }

  lemma DecidedFromVault(vault: Vault, rejected: Option<Secret>, now: real)
    requires Decide(vault, rejected, now).Renew?
    ensures vault == Holds(Decide(vault, rejected, now).record)
  {
  }

  lemma QuietTouches(w: World, step: Step, r: Secret)
    requires !step.Deliver? && !step.LogIn? && !step.Install? && ControlUsable(w)
    requires Touched(Next(w, step), r)
    ensures Touched(w, r)
  {
    hide Apply, Unspent, Decide;
    var w' := Next(w, step);
    if step.Load? && w.control.Idle? && Decide(w.vault, step.rejected, w.clock).Renew? {
      DecidedFromVault(w.vault, step.rejected, w.clock);
    }
    if InReply(w'.replies, r) { assert InReply(w.replies, r); }
  }

  lemma QuietKeepsOnce(w: World, step: Step, before: set<Login>)
    requires OnceInv(w, before) && ControlUsable(w) && !step.Deliver? && !step.LogIn? && !step.Install?
    ensures OnceInv(Next(w, step), before)
  {
    var w' := Next(w, step);
    assert w'.mine == w.mine && w'.logins == w.logins by { hide Apply, Decide, Successor; }
    hide Next, Touched, ControlUsable;
    forall r | Touched(w', r) ensures Touched(w, r) { QuietTouches(w, step, r); }
  }

  lemma IssuedIsNew(w: World, c: Command)
    requires WorldInv(w) && (c.ExchangeCode? || c.Refresh?) && Apply(w.store, c).1.Issued?
    ensures Apply(w.store, c).1.token.refresh !in w.mine
  {
    assert Sound(w.store) && forall q <- w.mine :: q in w.store.refreshTokens;
    hide WorldInv, Sound;
    IssuedNow(w.store, c);
  }

  lemma DeliverKeepsOnce(w: World, r: Secret, before: set<Login>)
    requires WorldInv(w) && OnceInv(w, before)
    ensures OnceInv(Next(w, Deliver(r)), before)
  {
    var c := Refresh(r, w.client, w.store.resource, None, w.clock);
    hide Apply, WorldInv;
    if r in w.wire && Apply(w.store, c).1.Issued? { IssuedIsNew(w, c); }
  }

  lemma LogInKeepsOnce(w: World, step: Step, before: set<Login>)
    requires step.LogIn? && WorldInv(w) && OnceInv(w, before)
    ensures OnceInv(Next(w, step), before)
  {
    var c := ExchangeCode(step.code, step.verifier, w.client, step.redirect, w.store.resource, w.clock);
    hide Apply, WorldInv;
    if Apply(w.store, c).1.Issued? { IssuedIsNew(w, c); }
    var w' := Next(w, step);
    assert forall r :: Touched(w', r) <==> Touched(w, r);
    hide Touched;
  }

  lemma InstallKeepsOnce(w: World, login: Login, write: Write, before: set<Login>)
    requires OnceInv(w, before)
    ensures OnceInv(Next(w, Install(login, write)), before + {login})
  {
    var w' := Next(w, Install(login, write));
    forall r | Touched(w', r) ensures Touched(w, r) || (login in w.logins && r == login.pair.refresh) {}
    hide Touched, Next, AfterWrite;
  }

  lemma UninstalledIsUnsent(w: World, login: Login, before: set<Login>)
    requires OnceInv(w, before) && login in w.logins && login !in before
    ensures login.pair.refresh !in w.sent
  {
    assert !Touched(w, login.pair.refresh);
  }

  lemma StepKeepsOnce(w: World, step: Step, before: set<Login>)
    requires WorldInv(w) && OnceInv(w, before) && Private(w, step) && Installs(step) !! before
    ensures Fair(w, step) && OnceInv(Next(w, step), before + Installs(step))
  {
    assert ControlUsable(w);
    assert before + {} == before;
    hide WorldInv, Next;
    if step.Deliver? {
      DeliverKeepsOnce(w, step.request, before);
    } else if step.LogIn? {
      LogInKeepsOnce(w, step, before);
    } else if step.Install? {
      InstallKeepsOnce(w, step.login, step.write, before);
      hide OnceInv;
      if step.login in w.logins { UninstalledIsUnsent(w, step.login, before); }
    } else {
      QuietKeepsOnce(w, step, before);
    }
  }

  lemma {:induction false} OnceIsFair(w: World, steps: seq<Step>, before: set<Login>)
    requires WorldInv(w) && OnceInv(w, before) && PrivateRun(w, steps) && OncePerLogin(steps, before)
    ensures FairRun(w, steps)
    decreases |steps|
  {
    if steps != [] {
      hide WorldInv, OnceInv, Next, Fair;
      StepKeepsOnce(w, steps[0], before);
      StepKeepsWorld(w, steps[0]);
      OnceIsFair(Next(w, steps[0]), steps[1..], before + Installs(steps[0]));
    }
  }

  lemma OnceAtStart(w: World)
    requires Start(w)
    ensures WorldInv(w) && OnceInv(w, {})
  {
    hide WorldInv;
    StartInv(w);
  }

  /** A client that installs no login twice never sends a refresh token twice, whatever happens on the way. */
  lemma OncePerLoginNeverResends(w: World, steps: seq<Step>)
    requires Start(w) && PrivateRun(w, steps) && OncePerLogin(steps, {})
    ensures FairRun(w, steps) && Unique(RunWorld(w, steps).sent)
  {
    hide WorldInv, OnceInv;
    OnceAtStart(w);
    OnceIsFair(w, steps, {});
    NeverSentTwice(w, steps);
  }

  // ----- a run that installs a login again

  const CALLBACK := Exact("https://client.example/")
  const FIRST := Pair(2, 3, TOKEN_SECONDS, ONE_TOOL)
  const SECOND := Pair(4, 5, TOKEN_SECONDS, ONE_TOOL)
  const LOGIN := Login(FIRST, 1.0)

  /** The consented store of one client that has not logged in yet, a second after the consent. */
  function ConsentedWorld(): World {
    World(Run(Empty("resource", ONE_TOOL), SETUP), "client", 1.0, Absent, Idle, {}, map[], {}, {}, [])
  }

  /** It logs in, installs the pair, and renews it when its access token is rejected. */
  const RENEWAL: seq<Step> := [
    LogIn(0, Verifier(7), CALLBACK, 1.0), Install(LOGIN, Written), Load(Some(2)), SaveIntent(Written), Send,
    Deliver(3), Receive, SaveSuccessor(Written)]

  lemma ConsentedStart()
    ensures Start(ConsentedWorld())
  {
    hide Sound, Run;
    EmptyInv("resource", ONE_TOOL);
    RunEvolves(Empty("resource", ONE_TOOL), SETUP);
  }

  /** The store once the code was redeemed. */
  function RedeemedStore(): Store {
    var s := Run(Empty("resource", ONE_TOOL), SETUP);
    s.(codes := map[0 := Code(1, CALLBACK, 7, 120.0, true)], tokens := map[2 := Token(1, 901.0)],
       refreshTokens := map[3 := RefreshToken(1, 0.0, false)], nextSecret := 4)
  }

  /** And once the refresh token was, too. */
  function RotatedStore(): Store {
    RedeemedStore().(tokens := map[2 := Token(1, 901.0), 4 := Token(1, 901.0)],
                     refreshTokens := map[3 := RefreshToken(1, 0.0, true), 5 := RefreshToken(1, 0.0, false)],
                     nextSecret := 6)
  }

  lemma RedeemedByLogin()
    ensures Apply(Run(Empty("resource", ONE_TOOL), SETUP),
                  ExchangeCode(0, Verifier(7), "client", CALLBACK, "resource", 1.0))
            == (RedeemedStore(), Issued(AccessToken(2, TOKEN_SECONDS, ONE_TOOL, 3)))
  {
    SetupLeaves();
    hide Run;
    var s := Run(Empty("resource", ONE_TOOL), SETUP);
    assert CodeMatches(s, 0, Verifier(7), "client", CALLBACK, "resource");
    assert CurrentGrant(s, 1, 1.0).Some?;
    var s1 := s.(codes := s.codes[0 := s.codes[0].(consumed := true)]);
    var issued := IssueTokens(s1, 1, ONE_TOOL, 0.0, 1.0).value;
    assert issued.0.codes == RedeemedStore().codes && issued.0.tokens == RedeemedStore().tokens;
    assert issued.0.refreshTokens == RedeemedStore().refreshTokens;
    assert issued == (RedeemedStore(), AccessToken(2, TOKEN_SECONDS, ONE_TOOL, 3));
  }

  lemma RotatedByRenewal()
    ensures Apply(RedeemedStore(), Refresh(3, "client", "resource", None, 1.0))
            == (RotatedStore(), Issued(AccessToken(4, TOKEN_SECONDS, ONE_TOOL, 5)))
  {
    SetupLeaves();
    hide Run;
    var s := RedeemedStore();
    assert CurrentGrant(s, 1, 1.0) == Some(GrantIdentity(1, "owner", "device", "client", "resource", ONE_TOOL));
    var s1 := s.(refreshTokens := s.refreshTokens[3 := s.refreshTokens[3].(consumed := true)]);
    var issued := IssueTokens(s1, 1, ONE_TOOL, 0.0, 1.0).value;
    assert issued.0.tokens == RotatedStore().tokens && issued.0.refreshTokens == RotatedStore().refreshTokens;
    assert issued == (RotatedStore(), AccessToken(4, TOKEN_SECONDS, ONE_TOOL, 5));
  }

  /** Where the renewal leaves the system: the first pair consumed and superseded, yet still within its lifetime. */
  function RenewedWorld(): World {
    World(RotatedStore(), "client", 1.0, Holds(Stored(Ready, SECOND, 901.0)), Idle, {}, map[3 := Some(SECOND)],
          {LOGIN}, {3, 5}, [3])
  }

  lemma RenewalRuns()
    ensures RunWorld(ConsentedWorld(), RENEWAL) == RenewedWorld()
  {
    SetupLeaves();
    RedeemedByLogin();
    RotatedByRenewal();
    hide Run, Apply, RunWorld;
    var w := ConsentedWorld();
    var first := Stored(Ready, FIRST, 901.0);
    var w1 := Next(w, RENEWAL[0]);
    assert w1 == w.(store := RedeemedStore(), mine := {3}, logins := {LOGIN});
    var w2 := Next(w1, RENEWAL[1]);
    assert w2 == w1.(vault := Holds(first));
    var w3 := Next(w2, RENEWAL[2]);
    assert w3 == w2.(control := Deciding(first));
    var w4 := Next(w3, RENEWAL[3]);
    assert w4 == w3.(vault := Holds(Pending(first)), control := Intended(first));
    FourSteps(w, RENEWAL[0], RENEWAL[1], RENEWAL[2], RENEWAL[3]);
    var w5 := Next(w4, RENEWAL[4]);
    assert w5 == w4.(control := Waiting(first, 1.0), wire := {3}, sent := [3]);
    var w6 := Next(w5, RENEWAL[5]);
    assert w6 == w5.(store := RotatedStore(), wire := {}, replies := map[3 := Some(SECOND)], mine := {3, 5});
    var w7 := Next(w6, RENEWAL[6]);
    assert w7 == w6.(control := Accepted(Stored(Ready, SECOND, 901.0)));
    assert Next(w7, RENEWAL[7]) == RenewedWorld();
    FourSteps(w4, RENEWAL[4], RENEWAL[5], RENEWAL[6], RENEWAL[7]);
    assert RENEWAL == [RENEWAL[0], RENEWAL[1], RENEWAL[2], RENEWAL[3]]
           + [RENEWAL[4], RENEWAL[5], RENEWAL[6], RENEWAL[7]];
    RunConcat(w, [RENEWAL[0], RENEWAL[1], RENEWAL[2], RENEWAL[3]], [RENEWAL[4], RENEWAL[5], RENEWAL[6], RENEWAL[7]]);
  }

  lemma {:induction false} WithoutOthersIsPrivate(w: World, steps: seq<Step>)
    requires forall st <- steps :: !st.Other?
    ensures PrivateRun(w, steps)
    decreases |steps|
  {
    if steps != [] {
      hide Next;
      assert steps[0] in steps;
      WithoutOthersIsPrivate(Next(w, steps[0]), steps[1..]);
    }
  }

  lemma {:induction false} OneInstallIsOnce(steps: seq<Step>, before: set<Login>, k: nat)
    requires forall i :: 0 <= i < |steps| && i != k ==> !steps[i].Install?
    requires k < |steps| ==> Installs(steps[k]) !! before
    ensures OncePerLogin(steps, before)
    decreases |steps|
  {
    if steps != [] {
      if k == 0 {
        OneInstallIsOnce(steps[1..], before + Installs(steps[0]), |steps|);
      } else {
        assert before + {} == before;
        OneInstallIsOnce(steps[1..], before, k - 1);
      }
    }
  }

  /** That run installs its login once, and its world is one from which the same login could be installed again. */
  lemma RenewalReachesReinstall()
    ensures Start(ConsentedWorld()) && PrivateRun(ConsentedWorld(), RENEWAL) && OncePerLogin(RENEWAL, {})
    ensures var w := RunWorld(ConsentedWorld(), RENEWAL);
            && w == RenewedWorld() && WorldInv(w) && w.control == Idle && LOGIN in w.logins && FIRST.refresh in w.sent
            && Installed(LOGIN.pair, LOGIN.requestedAt, w.clock).Some?
  {
    hide WorldInv, RunWorld, Next, Run, Fair;
    ConsentedStart();
    RenewalRuns();
    WithoutOthersIsPrivate(ConsentedWorld(), RENEWAL);
    OneInstallIsOnce(RENEWAL, {}, 1);
    OncePerLoginNeverResends(ConsentedWorld(), RENEWAL);
    StartInv(ConsentedWorld());
    RunKeepsWorld(ConsentedWorld(), RENEWAL);
  }

  const REINSTALL: seq<Step> := [Install(LOGIN, Written), Load(Some(2)), SaveIntent(Written), Send]

  lemma RotatedGrant()
    ensures 3 in RotatedStore().refreshTokens && RotatedStore().refreshTokens[3] == RefreshToken(1, 0.0, true)
    ensures 1 in RotatedStore().grants && !RotatedStore().grants[1].revoked
            && RotatedStore().grants[1].client == "client"
  {
    SetupLeaves();
    hide Run;
  }

  /**
   A run in which one login is installed twice: its token is sent twice, and the server answers by
   revoking the grant.
   */
  lemma ReinstallRevokes()
    ensures Start(ConsentedWorld()) && PrivateRun(ConsentedWorld(), RENEWAL + REINSTALL)
    ensures var w := RunWorld(ConsentedWorld(), RENEWAL + REINSTALL);
            !Unique(w.sent) && 1 in RotatedStore().grants && Next(w, Deliver(3)).store == RevokeGrant(RotatedStore(), 1)
    ensures 1 in RotatedStore().grants && !RotatedStore().grants[1].revoked
  {
    RotatedGrant();
    hide WorldInv, RunWorld, Next, Run, RotatedStore;
    RenewalReachesReinstall();
    WithoutOthersIsPrivate(ConsentedWorld(), RENEWAL + REINSTALL);
    RunConcat(ConsentedWorld(), RENEWAL, REINSTALL);
    ReinstalledPairIsResent(RenewedWorld(), LOGIN);
  }
}
