/**
 How many authentication attempts one consent request can have within a minute, over every run of
 the desk.
 */
module AttemptRuns {
  import opened Outcomes
  import opened Authorization
  import opened AuthorizationTheorems
  import opened ConsentDesk
  import opened ConsentRuns

  // ----- attempts in a minute

  lemma LeastOf(among: set<nat>) returns (m: nat)
    requires among != {}
    ensures m in among && forall k <- among :: m <= k
    decreases among
  {
    var x :| x in among;
    m := x;
    if among != {x} {
      var least := LeastOf(among - {x});
      if least < x { m := least; }
    }
    assert forall k <- among :: k == x || k in among - {x};
  }

  lemma {:induction false} WithinRange(among: set<nat>, from: nat, size: nat)
    requires forall k <- among :: from <= k < from + size
    ensures |among| <= size
  {
    if size == 0 {
      assert among == {};
    } else {
      WithinRange(among - {from + size - 1}, from, size - 1);
    }
  }

  /** The attempts in the minute after x, x itself excluded. */
  ghost function MinuteAfter(times: seq<real>, x: real): set<nat> {
    set i: nat | i < |times| && x < times[i] <= x + ATTEMPT_SECONDS
  }

  /** The attempts in the minute from x on, its last moment excluded. */
  ghost function MinuteFrom(times: seq<real>, x: real): set<nat> {
    set i: nat | i < |times| && x <= times[i] < x + ATTEMPT_SECONDS
  }

  /** The attempts in a window of this length, both ends included. */
  ghost function Window(times: seq<real>, x: real, length: real): set<nat> {
    set i: nat | i < |times| && x <= times[i] <= x + length
  }

  /** Attempts less than a minute apart are fewer than ten places apart, so there are ten of them at most. */
  lemma TenTogether(times: seq<real>, among: set<nat>)
    requires Spaced(times) && forall i <- among :: i < |times|
    requires forall i, j :: i in among && j in among ==> times[j] < times[i] + ATTEMPT_SECONDS
    ensures |among| <= MAX_ATTEMPTS
  {
    if among != {} {
      var m := LeastOf(among);
      assert forall k <- among :: m <= k < m + MAX_ATTEMPTS;
      WithinRange(among, m, MAX_ATTEMPTS);
    }
  }

  lemma AdmittedSpaced(s: Store, steps: seq<Step>, id: RequestId)
    ensures Spaced(AdmittedOf(RunWorld(Start(s), steps), id))
  {
    hide Next;
    StartInv(s);
    RunKeepsWorld(s, Start(s), steps);
    NothingSpaced();
  }

  /** Over its whole life no request has more than ten attempts let through in any minute, one of its ends excluded. */
  lemma AttemptsAreBounded(s: Store, steps: seq<Step>, id: RequestId, x: real)
    ensures |MinuteAfter(AdmittedOf(RunWorld(Start(s), steps), id), x)| <= MAX_ATTEMPTS
    ensures |MinuteFrom(AdmittedOf(RunWorld(Start(s), steps), id), x)| <= MAX_ATTEMPTS
  {
    var times := AdmittedOf(RunWorld(Start(s), steps), id);
    AdmittedSpaced(s, steps, id);
    TenTogether(times, MinuteAfter(times, x));
    TenTogether(times, MinuteFrom(times, x));
  }

  // ----- a minute with both ends included can hold twenty

  /** The form of this pending request passes every check now, and its list holds `k` attempts, all made now. */
  ghost predicate Ready(w: World, form: Form, k: nat) {
    && form.id in w.desk.pending && form.choices == {Password}
    && w.clock < w.desk.pending[form.id].expires
    && form.cookie == Some(w.desk.pending[form.id].browser) && form.csrf == w.desk.pending[form.id].csrf
    && |AttemptsOf(w.desk, form.id)| == k && forall j :: 0 <= j < k ==> AttemptsOf(w.desk, form.id)[j] == w.clock
  }

  function Repeat(st: Step, n: nat): seq<Step> {
    if n == 0 then [] else [st] + Repeat(st, n - 1)
  }

  lemma {:induction false} AllDropped(times: seq<real>, now: real)
    requires forall j :: 0 <= j < |times| ==> times[j] + ATTEMPT_SECONDS <= now
    ensures Recent(times, now) == []
  {
    if times != [] { AllDropped(times[1..], now); }
  }

  /** The attempt is let through after waiting, if the list is short or the wait a full minute. */
  lemma LetThrough(w: World, form: Form, k: nat, wait: real)
    requires Ready(w, form, k) && wait >= 0.0 && w.clock + wait < w.desk.pending[form.id].expires
    requires (wait == 0.0 && k < MAX_ATTEMPTS) || wait == ATTEMPT_SECONDS
    ensures var w' := Next(w, Submit(form, wait));
            && w'.clock == w.clock + wait && w'.desk.pending == w.desk.pending
            && AdmittedOf(w', form.id) == AdmittedOf(w, form.id) + [w'.clock]
            && Ready(w', form, if wait == 0.0 then k + 1 else 1)
  {
    hide Apply, Run;
    var times, now := AttemptsOf(w.desk, form.id), w.clock + wait;
    if wait == 0.0 {
      assert Recent(times, now) == times;
    } else {
      AllDropped(times, now);
    }
  }

  lemma ReadyMeans(w: World, form: Form, k: nat)
    requires Ready(w, form, k)
    ensures form.id in w.desk.pending && w.clock < w.desk.pending[form.id].expires
  {
  }

  lemma {:induction false} Burst(w: World, form: Form, k: nat, n: nat)
    requires Ready(w, form, k) && k + n <= MAX_ATTEMPTS
    ensures var w' := RunWorld(w, Repeat(Submit(form, 0.0), n));
            && w'.clock == w.clock && w'.desk.pending == w.desk.pending && Ready(w', form, k + n)
            && |AdmittedOf(w', form.id)| == |AdmittedOf(w, form.id)| + n
            && (forall j :: |AdmittedOf(w, form.id)| <= j < |AdmittedOf(w', form.id)| ==>
                  AdmittedOf(w', form.id)[j] == w.clock)
            && AdmittedOf(w, form.id) <= AdmittedOf(w', form.id)
    decreases n
  {
    hide Next, Ready;
    if n > 0 {
      ReadyMeans(w, form, k);
      LetThrough(w, form, k, 0.0);
      Burst(Next(w, Submit(form, 0.0)), form, k + 1, n - 1);
      assert Repeat(Submit(form, 0.0), n)[1..] == Repeat(Submit(form, 0.0), n - 1);
    }
  }

  lemma {:induction false} RunConcat(w: World, a: seq<Step>, b: seq<Step>)
    ensures RunWorld(w, a + b) == RunWorld(RunWorld(w, a), b)
    decreases |a|
  {
    hide Next;
    if a == [] {
      assert a + b == b;
    } else {
      RunConcat(Next(w, a[0]), a[1..], b);
      assert (a + b)[1..] == a[1..] + b;
    }
  }

  lemma OneStep(w: World, st: Step)
    ensures RunWorld(w, [st]) == Next(w, st)
  {
    hide Next;
    assert [st][1..] == [];
  }

  /** Ten attempts, a minute's wait and ten more are all let through: twenty within sixty seconds, ends included. */
  lemma ClosedMinuteHoldsTwenty(w: World, form: Form) returns (steps: seq<Step>)
    requires Ready(w, form, 0) && AdmittedOf(w, form.id) == []
    requires w.clock + ATTEMPT_SECONDS < w.desk.pending[form.id].expires
    ensures var times := AdmittedOf(RunWorld(w, steps), form.id);
            |times| == 20 && forall j :: 0 <= j < 20 ==> w.clock <= times[j] <= w.clock + ATTEMPT_SECONDS
  {
    hide Next, Ready;
    var first := Repeat(Submit(form, 0.0), MAX_ATTEMPTS);
    var second := Repeat(Submit(form, 0.0), MAX_ATTEMPTS - 1);
    Burst(w, form, 0, MAX_ATTEMPTS);
    var w1 := RunWorld(w, first);
    LetThrough(w1, form, MAX_ATTEMPTS, ATTEMPT_SECONDS);
    var w2 := Next(w1, Submit(form, ATTEMPT_SECONDS));
    assert RunWorld(w1, [Submit(form, ATTEMPT_SECONDS)]) == w2 by { OneStep(w1, Submit(form, ATTEMPT_SECONDS)); }
    Burst(w2, form, 1, MAX_ATTEMPTS - 1);
    steps := first + ([Submit(form, ATTEMPT_SECONDS)] + second);
    RunConcat(w, first, [Submit(form, ATTEMPT_SECONDS)] + second);
    RunConcat(w1, [Submit(form, ATTEMPT_SECONDS)], second);
  }

  /** Such a request exists: any consent that the store accepts, just opened. */
  lemma JustOpenedIsReady(s: Store, consent: Consent, browser: Secret, csrf: Secret)
    requires ValidateConsent(s, consent.(generation := None)).Ok?
    ensures var w := Next(Start(s), Open(consent, true, browser, csrf, 0.0));
            var form := Form(0, Some(browser), csrf, {Password});
            Ready(w, form, 0) && AdmittedOf(w, form.id) == []
              && w.clock + ATTEMPT_SECONDS < w.desk.pending[form.id].expires
  {
    hide ValidateConsent;
    assert Pruned(Start(s).desk, 0.0).pending == map[];
  }

  /** In every run, windows of this length with both ends included hold at most ten attempts of a request. */
  ghost predicate AtMostTenIn(length: real) {
    forall s, steps, id, x :: |Window(AdmittedOf(RunWorld(Start(s), steps), id), x, length)| <= MAX_ATTEMPTS
  }

  function Indices(n: nat): (r: set<nat>)
    ensures |r| == n && forall i :: i in r <==> 0 <= i < n
  {
    if n == 0 then {} else Indices(n - 1) + {n - 1}
  }

  lemma OpensAtOnce(s: Store, st: Step)
    requires st.Open? && st.wait == 0.0
    ensures Next(Start(s), st).clock == 0.0
  {
  }

  /** A request of a device and client just enrolled, with twenty attempts let through in its first minute. */
  lemma TwentyInAMinute() returns (s: Store, steps: seq<Step>)
    ensures var times := AdmittedOf(RunWorld(Start(s), steps), 0);
            |times| == 20 && forall j :: 0 <= j < 20 ==> 0.0 <= times[j] <= ATTEMPT_SECONDS
  {
    s := Run(Empty("resource", ONE_TOOL), SETUP);
    var consent := SETUP[2].consent;
    assert ValidateConsent(s, consent.(generation := None)).Ok? by { SetupLeaves(); }
    hide Run, Next, Ready, ValidateConsent;
    JustOpenedIsReady(s, consent, 1, 2);
    var open := Open(consent, true, 1, 2, 0.0);
    var w := Next(Start(s), open);
    var rest := ClosedMinuteHoldsTwenty(w, Form(0, Some(1), 2, {Password}));
    OneStep(Start(s), open);
    steps := [open] + rest;
    RunConcat(Start(s), [open], rest);
    assert w.clock == 0.0 by { OpensAtOnce(s, open); }
  }

  /** The bound on attempts holds for windows with both ends included exactly when they are shorter than a minute. */
  lemma TenExactlyBelowAMinute(length: real)
    ensures AtMostTenIn(length) <==> length < ATTEMPT_SECONDS
  {
    hide RunWorld;
    if length < ATTEMPT_SECONDS {
      forall s, steps, id, x ensures |Window(AdmittedOf(RunWorld(Start(s), steps), id), x, length)| <= MAX_ATTEMPTS {
        var times := AdmittedOf(RunWorld(Start(s), steps), id);
        AdmittedSpaced(s, steps, id);
        TenTogether(times, Window(times, x, length));
      }
    } else {
      var s, steps := TwentyInAMinute();
      var times := AdmittedOf(RunWorld(Start(s), steps), 0);
      assert Window(times, 0.0, length) == Indices(20);
    }
  }
}
