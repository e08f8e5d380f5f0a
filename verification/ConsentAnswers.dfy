/**
 When the consent desk gives which answer, on the fields of a request and its decision, and over
 every run: which decisions get their code, and which are refused for too many attempts.
 */
module ConsentAnswers {
  import opened Outcomes
  import opened Authorization
  import opened AuthorizationInvariants
  import opened AuthorizationTheorems
  import opened AuthorizationAnswers
  import opened ConsentDesk
  import opened ConsentRuns

  // ----- opening

  /** The requests that are pending and unexpired. */
  function Live(d: Desk, now: real): set<RequestId> {
    set id | id in d.pending && now < d.pending[id].expires
  }

  lemma PrunedMeans(d: Desk, now: real)
    ensures var live := Pruned(d, now);
            && live.pending.Keys == Live(d, now) && |live.pending| == |Live(d, now)| && live.nextId == d.nextId
            && (forall id <- Live(d, now) :: live.pending[id] == d.pending[id])
            && live.attempts.Keys == d.attempts.Keys * Live(d, now)
            && (forall id <- live.attempts :: live.attempts[id] == d.attempts[id])
  {
    var pending := Unexpired(d.pending, now);
    assert pending.Keys == Live(d, now) && |pending| == |pending.Keys|;
  }

  /** What the desk's check of a consent finds: the generation of an approvable device, or the store's own refusal. */
  lemma CheckedExactly(s: Store, c: Consent, now: real)
    ensures match ValidateConsent(s, c)
            case Ok(generation) =>
              Approvable(s, c) && c.device in s.devices && generation == s.devices[c.device].generation
            case Err(e) => !Approvable(s, c) && Apply(s, Approve(c, now)).1 == Failed(e)
  {
    ApprovedExactly(s, c, now);
    hide Approvable, Registered, ToolsKnown;
  }

  /**
   A page is served exactly while fewer than 64 requests are unexpired, for a well-formed request
   that the store would approve; each other answer has its own reason.
   */
  lemma OpenedExactly(d: Desk, s: Store, c: Consent, wellFormed: bool, browser: Secret, csrf: Secret, now: real)
    ensures var answer := OpenConsent(d, s, c, wellFormed, browser, csrf, now).1;
            if |Live(d, now)| >= 64 then answer == TooManyRequests
            else if !wellFormed then answer == BadRequest
            else if Approvable(s, c.(generation := None)) then answer == Page(d.nextId)
            else answer == StoreRefused(Apply(s, Approve(c.(generation := None), now)).1.failure)
  {
    PrunedMeans(d, now);
    CheckedExactly(s, c.(generation := None), now);
    hide Approvable, ValidateConsent, Apply, Pruned, Live;
  }

  /**
   Whatever the answer, expired requests are gone, and attempts of requests no longer pending; a
   served request is new, lives five minutes and keeps the generation of its device.
   */
  lemma OpenedLeaves(d: Desk, s: Store, c: Consent, wellFormed: bool, browser: Secret, csrf: Secret, now: real)
    requires forall id <- d.pending :: id < d.nextId
    ensures var r := OpenConsent(d, s, c, wellFormed, browser, csrf, now);
            && r.0.pending.Keys == Live(d, now) + (if r.1.Page? then {d.nextId} else {})
            && (forall id <- Live(d, now) :: r.0.pending[id] == d.pending[id])
            && (r.1.Page? ==>
                  && c.device in s.devices
                  && r.0.pending[d.nextId]
                     == PendingConsent(c, s.devices[c.device].generation, browser, csrf, now + 300.0))
            && r.0.nextId == d.nextId + (if r.1.Page? then 1 else 0)
            && r.0.attempts.Keys == d.attempts.Keys * Live(d, now)
            && (forall id <- r.0.attempts :: r.0.attempts[id] == d.attempts[id])
  {
    PrunedMeans(d, now);
    OpenFacts(d, s, c, wellFormed, browser, csrf, now);
    CheckedExactly(s, c.(generation := None), now);
    hide Approvable, ValidateConsent, Apply, Pruned, OpenConsent;
  }

  // ----- submitting

  /** The form is of a request that is pending and unexpired, from its browser and page, with one choice. */
  ghost predicate Matches(d: Desk, form: Form, now: real) {
    && form.id in d.pending && now < d.pending[form.id].expires
    && form.cookie == Some(d.pending[form.id].browser) && form.csrf == d.pending[form.id].csrf
    && exists choice :: form.choices == {choice}
  }

  /**
   A form that matches its request goes on, as a denial at once, and otherwise while fewer than ten
   attempts are recent; then this attempt is noted. Every other form is told why not, and no request
   is touched.
   */
  lemma SubmittedExactly(d: Desk, form: Form, now: real)
    ensures var r, recent := SubmitDecision(d, form, now), Recent(AttemptsOf(d, form.id), now);
            && (r.1.Admitted? <==> Matches(d, form, now) && (form.choices == {Deny} || |recent| < 10))
            && (r.1.Admitted? ==>
                  && r.1.ticket.id == form.id && r.1.ticket.record == d.pending[form.id]
                  && form.choices == {r.1.ticket.choice})
            && (r.1 == TooManyAttempts <==> Matches(d, form, now) && form.choices != {Deny} && |recent| >= 10)
            && (!Matches(d, form, now) ==>
                  r.1 == if form.id !in d.pending || d.pending[form.id].expires <= now then Expired
                         else if form.cookie == None then NoCookie
                         else if form.cookie.value != d.pending[form.id].browser || form.csrf != d.pending[form.id].csrf
                         then Mismatch else BadRequest)
            && r.0 == d.(attempts := r.0.attempts)
            && r.0.attempts == if !Matches(d, form, now) || form.choices == {Deny} then d.attempts
                               else d.attempts[form.id := if |recent| < 10 then recent + [now] else recent]
  {
    hide Recent;
    if choice :| form.choices == {choice} { assert |{choice}| == 1; }
    if |form.choices| == 1 {
      var choice :| choice in form.choices;
      OnlyChoice(form.choices, choice);
      assert choice.Passkey? <==> Passkey in form.choices;
      assert choice.Deny? <==> Deny in form.choices;
    }
  }

  /** Ten attempts are recent exactly if the tenth last that was let through is less than a minute old. */
  lemma TenAreRecent(kept: seq<real>, admitted: seq<real>, clock: real, now: real)
    requires Tracks(kept, admitted, clock) && clock <= now
    ensures |Recent(kept, now)| >= 10 <==> |admitted| >= 10 && now < admitted[|admitted| - 10] + 60.0
  {
    hide Recent;
    var k := RecentDrops(kept, now);
    if |kept| == 10 { assert kept[0] == admitted[|admitted| - 10]; }
  }

  lemma RunTracks(s: Store, steps: seq<Step>, id: RequestId)
    requires id in RunWorld(Start(s), steps).desk.pending
    ensures var w := RunWorld(Start(s), steps); Tracks(AttemptsOf(w.desk, id), AdmittedOf(w, id), w.clock)
  {
    hide Run, AllGrounded, Fresh, DecidedOnce, RunWorld, Spaced, Tracks;
    StartInv(s);
    RunKeepsWorld(s, Start(s), steps);
  }

  /**
   In every run, a matching form that authenticates is refused for too many attempts exactly if the
   tenth last attempt that was let through for its request is less than a minute old.
   */
  lemma RefusedExactlyAfterTen(s: Store, steps: seq<Step>, form: Form, wait: real)
    requires var w := RunWorld(Start(s), steps);
             Matches(w.desk, form, Later(w, wait)) && form.choices != {Deny}
    ensures var w := RunWorld(Start(s), steps);
            var now, admitted := Later(w, wait), AdmittedOf(w, form.id);
            if |admitted| >= 10 && now < admitted[|admitted| - 10] + 60.0
            then SubmitDecision(w.desk, form, now).1 == TooManyAttempts
            else SubmitDecision(w.desk, form, now).1.Admitted?
  {
    var w := RunWorld(Start(s), steps);
    assert form.id in w.desk.pending;
    hide RunWorld, SubmitDecision, Recent, Tracks, Matches, AttemptsOf, AdmittedOf;
    RunTracks(s, steps, form.id);
    SubmittedExactly(w.desk, form, Later(w, wait));
    TenAreRecent(AttemptsOf(w.desk, form.id), AdmittedOf(w, form.id), w.clock, Later(w, wait));
  }

  // ----- resuming

  lemma WithoutIsLess<K, V>(rows: map<K, V>, key: K)
    ensures Without(rows, key) == rows - {key}
  {
  }

  /**
   What a decision is answered once its verification is in. Failing verification or an expired
   request leave the desk alone; a request that is not the one decided on is dropped; the one
   decided on is consumed whatever follows, and only then can a code be made.
   */
  lemma ResumedExactly(d: Desk, s: Store, t: Ticket, v: Verification, g: Guard, now: real, at: real)
    ensures var r := ResumeDecision(d, s, t, v, g, now, at);
            var asked := t.record.consent.(generation := Some(t.record.generation));
            if t.choice != Deny && v != Verified then
              && r.0 == d && r.1 == s
              && r.2 == match v
                        case Unavailable => AuthenticationUnavailable
                        case Busy => AuthenticationBusy
                        case _ => WrongCredential
            else if t.record.expires <= now then r == (d, s, AlreadyProcessed)
            else if t.id !in d.pending || d.pending[t.id] != t.record then
              r == (d.(pending := d.pending - {t.id}), s, AlreadyProcessed)
            else
              && r.0 == d.(pending := d.pending - {t.id}, attempts := d.attempts - {t.id})
              && (t.choice == Deny ==> r.1 == s && r.2 == Redirected(None))
              && (t.choice == Passkey && g != Held ==> r.1 == s && r.2 == GuardFailed(g))
              && (t.choice == Password || (t.choice == Passkey && g == Held) ==>
                    && r.1 == Apply(s, Approve(asked, at)).0
                    && if Approvable(s, asked) then r.2 == Redirected(Some(s.nextSecret))
                       else r.2 == StoreRefused(Apply(s, Approve(asked, at)).1.failure) && r.1 == s)
  {
    WithoutIsLess(d.pending, t.id);
    WithoutIsLess(d.attempts, t.id);
    ApprovedExactly(s, t.record.consent.(generation := Some(t.record.generation)), at);
    hide Apply, Approvable, Without;
  }

  lemma UnrenewedStep(s: Store, c: Command, device: string)
    requires device in s.devices && !Renews(s, c, device)
    ensures device in Apply(s, c).0.devices && Apply(s, c).0.devices[device].active == s.devices[device].active
  {
    if c.RevokeDevice? || c.BeginOwnerReset? || c.CompleteOwnerReset? || c.EnableDevice? {
      DeviceCommandsExactly(s, c);
    } else if c.EnrollDevice? {
      EnrolledExactly(s, c.owner, c.device, c.tools);
    } else {
      DevicesUntouched(s, c);
    }
    hide Apply;
  }

  /** A device that is never renewed stays as active as it is. */
  lemma {:induction false} UnrenewedStays(s: Store, commands: seq<Command>, device: string)
    requires device in s.devices && Renewals(s, commands, device) == 0
    ensures device in Run(s, commands).devices
            && Run(s, commands).devices[device].active == s.devices[device].active
    decreases |commands|
  {
    if commands != [] {
      hide Apply, Renews;
      UnrenewedStep(s, commands[0], device);
      UnrenewedStays(Apply(s, commands[0]).0, commands[1..], device);
    }
  }

  /** What could be approved at its generation still can, while its device is not renewed and its tools are known. */
  lemma StillApprovable(s: Store, commands: seq<Command>, c: Consent, generation: nat)
    requires Sound(s) && ValidateConsent(s, c.(generation := None)) == Ok(generation)
    requires Renewals(s, commands, c.device) == 0 && c.tools <= Run(s, commands).knownTools
    ensures Approvable(Run(s, commands), c.(generation := Some(generation)))
  {
    hide Sound, Run, Apply, ValidateConsent, Renewals, CallbackOf;
    CheckedExactly(s, c.(generation := None), 0.0);
    RunEvolves(s, commands);
    UnrenewedStays(s, commands, c.device);
    GenerationCountsRenewals(s, commands, c.device);
    hide GrantsEvolve, CodesEvolve, TokensEvolve, RefreshTokensEvolve;
  }

  /**
   However decisions interleave and the store changes, a waiting decision that is resumed gets a code
   exactly if it is verified, a passkey being held, its request is unexpired and still the stored
   one, its device was never renewed since the request was opened, and its tools are all known.
   The code is for what was asked then; nothing else on the tables can be in its way.
   */
  lemma CodeExactlyIfConsented(s: Store, steps: seq<Step>, st: Step)
    requires Sound(s) && st.Resume? && st.flight in RunWorld(Start(s), steps).flying
    ensures var w := RunWorld(Start(s), steps);
            var t, now := w.flying[st.flight], Later(w, st.wait);
            var answer := ResumeDecision(w.desk, w.store, t, st.verification, st.guard, now, st.at).2;
            && t.id in w.openedAt && w.openedAt[t.id] <= |w.history|
            && (answer.Redirected? && answer.code.Some? <==>
                  && t.choice != Deny && st.verification == Verified && (t.choice == Passkey ==> st.guard == Held)
                  && now < t.record.expires && t.id in w.desk.pending && w.desk.pending[t.id] == t.record
                  && Renewals(Run(s, w.history[..w.openedAt[t.id]]), w.history[w.openedAt[t.id]..],
                              t.record.consent.device) == 0
                  && t.record.consent.tools <= w.store.knownTools)
            && (answer.Redirected? && answer.code.Some? ==>
                  CodeFor(Next(w, st).store, answer.code.value, t.record.consent))
  {
    hide Run, Renewals, Apply, WorldInv, ResumeDecision, CodeFor, ValidateConsent, Sound;
    var w := RunWorld(Start(s), steps);
    StartInv(s);
    RunKeepsWorld(s, Start(s), steps);
    FlyingGrounded(s, w, st.flight);
    var t, now := w.flying[st.flight], Later(w, st.wait);
    var asked := t.record.consent.(generation := Some(t.record.generation));
    var k := w.openedAt[t.id];
    var then' := Run(s, w.history[..k]);
    RunSplit(s, w.history, k);
    RunEvolves(s, w.history[..k]);
    ResumedExactly(w.desk, w.store, t, st.verification, st.guard, now, st.at);
    ApprovedExactly(w.store, asked, st.at);
    if Approvable(w.store, asked) {
      UnrenewedSince(s, w, t, st.at);
      if CodeOf(ResumeDecision(w.desk, w.store, t, st.verification, st.guard, now, st.at).2).Some? {
        CodeFacts(w.desk, w.store, t, st.verification, st.guard, now, st.at);
      }
    } else if Renewals(then', w.history[k..], t.record.consent.device) == 0
              && t.record.consent.tools <= w.store.knownTools {
      StillApprovable(then', w.history[k..], t.record.consent, t.record.generation);
    }
  }
}
