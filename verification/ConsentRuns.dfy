/**
 Every interleaving of decisions at the consent desk, with the grant store changing underneath.

 A run is any sequence of steps: a request opened, the first or the second part of a decision, a
 transaction on the store by anybody, a restart of the server. The monotonic clock never runs back.
 */
module ConsentRuns {
  import opened Outcomes
  import opened Collections
  import opened Authorization
  import opened AuthorizationTheorems
  import opened ConsentDesk

  /** A decision that consumed its request, and the code it made, if any. */
  datatype Decision = Decision(ticket: Ticket, verification: Verification, at: real, code: Option<Secret>)

  /**
   `flying` holds the decisions that await. `history` is every transaction committed since the
   start, `openedAt` how long it was when a request was opened, `admitted` the times at which a
   request's authentication attempts were let through, and `decided` the consuming decisions.
   */
  datatype World = World(
    desk: Desk,
    store: Store,
    clock: real,
    flying: map<nat, Ticket>,
    flights: nat,
    history: seq<Command>,
    openedAt: map<RequestId, nat>,
    admitted: map<RequestId, seq<real>>,
    decided: seq<Decision>)

  datatype Step =
    | Open(consent: Consent, wellFormed: bool, browser: Secret, csrf: Secret, wait: real)
    | Submit(form: Form, wait: real)
    | Resume(flight: nat, verification: Verification, guard: Guard, wait: real, at: real)
    | Transact(command: Command)
    | Restart(knownTools: set<string>)

  function Start(s: Store): World {
    World(Desk(map[], map[], 0), s, 0.0, map[], 0, [], map[], map[], [])
  }

  function Later(w: World, wait: real): real {
    w.clock + if wait > 0.0 then wait else 0.0
  }

  function AdmittedOf(w: World, id: RequestId): seq<real> {
    if id in w.admitted then w.admitted[id] else []
  }

  function Opening(w: World, st: Step): World
    requires st.Open?
  {
    var now := Later(w, st.wait);
    var r := OpenConsent(w.desk, w.store, st.consent, st.wellFormed, st.browser, st.csrf, now);
    w.(desk := r.0, clock := now, openedAt := if r.1.Page? then w.openedAt[r.1.id := |w.history|] else w.openedAt)
  }

  function Submitting(w: World, st: Step): World
    requires st.Submit?
  {
    var now := Later(w, st.wait);
    var r := SubmitDecision(w.desk, st.form, now);
    if !r.1.Admitted? then w.(desk := r.0, clock := now)
    else
      w.(desk := r.0, clock := now, flying := w.flying[w.flights := r.1.ticket], flights := w.flights + 1,
         admitted := if r.1.ticket.choice == Deny then w.admitted
                     else w.admitted[st.form.id := AdmittedOf(w, st.form.id) + [now]])
  }

  predicate Consumes(a: Answer) {
    a.Redirected? || a.GuardFailed? || a.StoreRefused?
  }

  function CodeOf(a: Answer): Option<Secret> {
    if a.Redirected? then a.code else None
  }

  function Resuming(w: World, st: Step): World
    requires st.Resume? && st.flight in w.flying
  {
    var now := Later(w, st.wait);
    var ticket := w.flying[st.flight];
    var r := ResumeDecision(w.desk, w.store, ticket, st.verification, st.guard, now, st.at);
    w.(desk := r.0, store := r.1, clock := now, flying := Without(w.flying, st.flight),
       history := if CodeOf(r.2).Some? then w.history + [Approval(ticket.record, st.at)] else w.history,
       decided := if Consumes(r.2) then w.decided + [Decision(ticket, st.verification, now, CodeOf(r.2))]
                  else w.decided)
  }

  /** A new process: requests and waiting decisions are gone, the database is opened again. */
  function Restarting(w: World, knownTools: set<string>): World {
    w.(desk := Desk(map[], map[], w.desk.nextId), flying := map[],
       store := Apply(w.store, Reopen(knownTools)).0, history := w.history + [Reopen(knownTools)])
  }

  function Next(w: World, st: Step): World {
    match st
    case Open(_, _, _, _, _) => Opening(w, st)
    case Submit(_, _) => Submitting(w, st)
    case Resume(flight, _, _, _, _) => if flight in w.flying then Resuming(w, st) else w
    case Transact(c) => w.(store := Apply(w.store, c).0, history := w.history + [c])
    case Restart(knownTools) => Restarting(w, knownTools)
  }

  function RunWorld(w: World, steps: seq<Step>): World
    decreases |steps|
  {
    if steps == [] then w else RunWorld(Next(w, steps[0]), steps[1..])
  }

  // ----- what every run keeps

  /** Only requests opened so far are known anywhere, and a decided one is no longer pending. */
  ghost predicate Fresh(w: World) {
    && (forall id <- w.desk.pending :: id < w.desk.nextId)
    && (forall id <- w.desk.attempts :: id < w.desk.nextId)
    && (forall id <- w.admitted :: id < w.desk.nextId)
    && (forall f <- w.flying :: w.flying[f].id < w.desk.nextId)
    && (forall k :: 0 <= k < |w.decided| ==>
          w.decided[k].ticket.id < w.desk.nextId && w.decided[k].ticket.id !in w.desk.pending)
  }

  ghost predicate DecidedOnce(decided: seq<Decision>) {
    forall j, k :: 0 <= j < k < |decided| ==> decided[j].ticket.id != decided[k].ticket.id
  }

  /** The request was valid, at its generation, in the store as it was when the request was opened. */
  ghost predicate Grounded(s: Store, history: seq<Command>, openedAt: map<RequestId, nat>, id: RequestId,
                           record: PendingConsent)
  {
    && id in openedAt && openedAt[id] <= |history|
    && ValidateConsent(Run(s, history[..openedAt[id]]), record.consent.(generation := None)) == Ok(record.generation)
  }

  ghost predicate AllGrounded(s: Store, w: World) {
    && (forall id <- w.desk.pending :: Grounded(s, w.history, w.openedAt, id, w.desk.pending[id]))
    && (forall f <- w.flying :: Grounded(s, w.history, w.openedAt, w.flying[f].id, w.flying[f].record))
  }

  /** Ten attempts later, at least a minute has passed. */
  ghost predicate Spaced(times: seq<real>) {
    && (forall i, j :: 0 <= i <= j < |times| ==> times[i] <= times[j])
    && (forall i, j :: 0 <= i < j < |times| && j - i >= MAX_ATTEMPTS ==> times[i] + ATTEMPT_SECONDS <= times[j])
  }

  /** The desk's list is the end of the whole record, and what it dropped is a minute old. */
  ghost predicate Tracks(kept: seq<real>, times: seq<real>, clock: real) {
    && |kept| <= |times| && |kept| <= MAX_ATTEMPTS
    && kept == times[|times| - |kept|..]
    && (forall j :: 0 <= j < |times| - |kept| ==> times[j] + ATTEMPT_SECONDS <= clock)
    && (forall j :: 0 <= j < |times| ==> times[j] <= clock)
  }

  ghost predicate Throttled(w: World) {
    && (forall id <- w.admitted :: Spaced(w.admitted[id]))
    && (forall id <- w.desk.pending :: Tracks(AttemptsOf(w.desk, id), AdmittedOf(w, id), w.clock))
  }

  ghost predicate WorldInv(s: Store, w: World) {
    && w.store == Run(s, w.history)
    && |w.desk.pending| <= MAX_PENDING
    && Fresh(w) && DecidedOnce(w.decided) && AllGrounded(s, w) && Throttled(w)
  }

  // ----- one step at a time

  lemma {:induction false} RunAppend(s: Store, commands: seq<Command>, c: Command)
    ensures Run(s, commands + [c]) == Apply(Run(s, commands), c).0
    decreases |commands|
  {
    hide Apply;
    if commands == [] {
      assert [] + [c] == [c];
      assert Run(Apply(s, c).0, [c][1..]) == Apply(s, c).0;
    } else {
      RunAppend(Apply(s, commands[0]).0, commands[1..], c);
      assert (commands + [c])[1..] == commands[1..] + [c];
    }
  }

  lemma StillGrounded(s: Store, history: seq<Command>, openedAt: map<RequestId, nat>, id: RequestId,
                      record: PendingConsent, c: Command)
    requires Grounded(s, history, openedAt, id, record)
    ensures Grounded(s, history + [c], openedAt, id, record)
  {
    assert (history + [c])[..openedAt[id]] == history[..openedAt[id]];
  }

  lemma AllStillGrounded(s: Store, w: World, c: Command)
    requires AllGrounded(s, w)
    ensures AllGrounded(s, w.(history := w.history + [c]))
  {
    hide Grounded;
    forall id <- w.desk.pending ensures Grounded(s, w.history + [c], w.openedAt, id, w.desk.pending[id]) {
      StillGrounded(s, w.history, w.openedAt, id, w.desk.pending[id], c);
    }
    forall f <- w.flying ensures Grounded(s, w.history + [c], w.openedAt, w.flying[f].id, w.flying[f].record) {
      StillGrounded(s, w.history, w.openedAt, w.flying[f].id, w.flying[f].record, c);
    }
  }

  lemma SameThrottle(w: World, w': World)
    requires Throttled(w) && w'.desk == w.desk && w'.admitted == w.admitted && w'.clock == w.clock
    ensures Throttled(w')
  {
  }

  lemma SameFresh(w: World, w': World)
    requires Fresh(w) && w'.desk == w.desk && w'.admitted == w.admitted && w'.flying == w.flying
             && w'.decided == w.decided
    ensures Fresh(w')
  {
  }

  lemma SameGround(s: Store, w: World, w': World)
    requires AllGrounded(s, w) && w'.desk.pending == w.desk.pending && w'.flying == w.flying
    requires w'.history == w.history && w'.openedAt == w.openedAt
    ensures AllGrounded(s, w')
  {
  }

  lemma TransactKeeps(s: Store, w: World, c: Command)
    requires w.store == Run(s, w.history) && AllGrounded(s, w) && Fresh(w) && Throttled(w)
    ensures var w' := w.(store := Apply(w.store, c).0, history := w.history + [c]);
            w'.store == Run(s, w'.history) && AllGrounded(s, w') && Fresh(w') && Throttled(w')
  {
    hide Apply, Run, AllGrounded, Fresh, Throttled;
    var w' := w.(store := Apply(w.store, c).0, history := w.history + [c]);
    RunAppend(s, w.history, c);
    AllStillGrounded(s, w, c);
    SameThrottle(w, w');
    SameFresh(w, w');
    SameGround(s, w.(history := w.history + [c]), w');
  }

  lemma ClearedKeeps(s: Store, w: World)
    requires AllGrounded(s, w) && Fresh(w) && Throttled(w)
    ensures var w' := w.(desk := Desk(map[], map[], w.desk.nextId), flying := map[]);
            AllGrounded(s, w') && Fresh(w') && Throttled(w')
  {
    hide Grounded, Spaced, Tracks;
  }

  lemma RestartKeeps(s: Store, w: World, knownTools: set<string>)
    requires w.store == Run(s, w.history) && AllGrounded(s, w) && Fresh(w) && Throttled(w)
    ensures var w' := Restarting(w, knownTools);
            w'.store == Run(s, w'.history) && AllGrounded(s, w') && Fresh(w') && Throttled(w')
  {
    hide Apply, Run, AllGrounded, Fresh, Throttled;
    ClearedKeeps(s, w);
    TransactKeeps(s, w.(desk := Desk(map[], map[], w.desk.nextId), flying := map[]), Reopen(knownTools));
  }

  // opening

  lemma PrunedSmaller(d: Desk, now: real)
    ensures Pruned(d, now).pending.Keys <= d.pending.Keys && |Pruned(d, now).pending| <= |d.pending|
  {
    var p := Pruned(d, now).pending;
    assert |p| == |p.Keys| && |d.pending| == |d.pending.Keys|;
    SubsetSize(p.Keys, d.pending.Keys);
  }

  /** Opening a request only prunes, and adds at most one request, under the next id. */
  lemma OpenFacts(d: Desk, s: Store, c: Consent, wellFormed: bool, browser: Secret, csrf: Secret, now: real)
    ensures var r := OpenConsent(d, s, c, wellFormed, browser, csrf, now);
            if r.1.Page? then
              && r.1.id == d.nextId && r.0.nextId == d.nextId + 1 && r.0.attempts == Pruned(d, now).attempts
              && |Pruned(d, now).pending| < MAX_PENDING && ValidateConsent(s, c.(generation := None)).Ok?
              && r.0.pending == Pruned(d, now).pending[d.nextId :=
                   PendingConsent(c, ValidateConsent(s, c.(generation := None)).value, browser, csrf,
                                  now + CONSENT_SECONDS)]
            else r.0 == Pruned(d, now)
  {
    hide ValidateConsent, Unexpired, Kept;
  }

  lemma OpeningKeepsDesk(w: World, st: Step)
    requires st.Open? && |w.desk.pending| <= MAX_PENDING && Fresh(w)
    ensures |Opening(w, st).desk.pending| <= MAX_PENDING && Fresh(Opening(w, st))
  {
    hide ValidateConsent, OpenConsent;
    OpenFacts(w.desk, w.store, st.consent, st.wellFormed, st.browser, st.csrf, Later(w, st.wait));
    PrunedSmaller(w.desk, Later(w, st.wait));
  }

  lemma NewlyGrounded(s: Store, w: World, record: PendingConsent)
    requires w.store == Run(s, w.history)
             && ValidateConsent(w.store, record.consent.(generation := None)) == Ok(record.generation)
    ensures Grounded(s, w.history, w.openedAt[w.desk.nextId := |w.history|], w.desk.nextId, record)
  {
    hide ValidateConsent;
    assert w.history[..|w.history|] == w.history;
  }

  lemma GroundedElsewhere(s: Store, w: World, id: RequestId, record: PendingConsent)
    requires Grounded(s, w.history, w.openedAt, id, record) && id < w.desk.nextId
    ensures Grounded(s, w.history, w.openedAt[w.desk.nextId := |w.history|], id, record)
  {
    hide ValidateConsent;
  }

  lemma OpeningKeepsGround(s: Store, w: World, st: Step)
    requires st.Open? && w.store == Run(s, w.history) && Fresh(w) && AllGrounded(s, w)
    ensures AllGrounded(s, Opening(w, st))
  {
    hide ValidateConsent, Run, OpenConsent, Grounded;
    OpenFacts(w.desk, w.store, st.consent, st.wellFormed, st.browser, st.csrf, Later(w, st.wait));
    var w' := Opening(w, st);
    forall id <- w'.desk.pending ensures Grounded(s, w'.history, w'.openedAt, id, w'.desk.pending[id]) {
      if id == w.desk.nextId {
        NewlyGrounded(s, w, w'.desk.pending[id]);
      } else {
        GroundedElsewhere(s, w, id, w.desk.pending[id]);
      }
    }
    forall f <- w'.flying ensures Grounded(s, w'.history, w'.openedAt, w'.flying[f].id, w'.flying[f].record) {
      GroundedElsewhere(s, w, w.flying[f].id, w.flying[f].record);
    }
  }

  lemma NothingTracked(clock: real)
    ensures Tracks([], [], clock)
  {
  }

  lemma TracksLater(kept: seq<real>, times: seq<real>, clock: real, later: real)
    requires Tracks(kept, times, clock) && clock <= later
    ensures Tracks(kept, times, later)
  {
  }

  /**
   Time went on, no attempt was let through, and every pending request has its old attempts, or is
   new and has none.
   */
  ghost predicate Unattempted(w: World, w': World) {
    && w.clock <= w'.clock && w'.admitted == w.admitted
    && forall id <- w'.desk.pending ::
         (id in w.desk.pending && AttemptsOf(w'.desk, id) == AttemptsOf(w.desk, id))
         || (AttemptsOf(w'.desk, id) == [] && AdmittedOf(w', id) == [])
  }

  lemma UnattemptedKeepsThrottle(w: World, w': World)
    requires Throttled(w) && Unattempted(w, w')
    ensures Throttled(w')
  {
    hide Spaced, Tracks;
    forall id <- w'.desk.pending ensures Tracks(AttemptsOf(w'.desk, id), AdmittedOf(w', id), w'.clock) {
      NothingTracked(w'.clock);
      if id in w.desk.pending && AttemptsOf(w'.desk, id) == AttemptsOf(w.desk, id) {
        TracksLater(AttemptsOf(w.desk, id), AdmittedOf(w, id), w.clock, w'.clock);
      }
    }
  }

  lemma OpeningAttemptsNothing(w: World, st: Step)
    requires st.Open? && Fresh(w)
    ensures Unattempted(w, Opening(w, st))
  {
    hide ValidateConsent, OpenConsent;
    OpenFacts(w.desk, w.store, st.consent, st.wellFormed, st.browser, st.csrf, Later(w, st.wait));
  }

  // submitting

  lemma {:induction false} RecentDrops(times: seq<real>, now: real) returns (k: nat)
    ensures k <= |times| && Recent(times, now) == times[k..]
    ensures forall j :: 0 <= j < k ==> times[j] + ATTEMPT_SECONDS <= now
    ensures k < |times| ==> now < times[k] + ATTEMPT_SECONDS
  {
    if times != [] && times[0] <= now - ATTEMPT_SECONDS {
      k := RecentDrops(times[1..], now);
      k := k + 1;
    } else {
      k := 0;
    }
  }

  /** Dropping what is a minute old keeps track. */
  lemma TracksRecent(kept: seq<real>, times: seq<real>, clock: real, now: real)
    requires Tracks(kept, times, clock) && clock <= now
    ensures Tracks(Recent(kept, now), times, now)
  {
    var k := RecentDrops(kept, now);
    var m := |times| - |kept|;
    assert kept[k..] == times[m + k..];
    forall j | 0 <= j < m + k ensures times[j] + ATTEMPT_SECONDS <= now {
      if j >= m { assert kept[j - m] == times[j]; }
    }
  }

  /** One more attempt, let through because fewer than ten are recent. */
  lemma AdmitKeeps(kept: seq<real>, times: seq<real>, now: real)
    requires Tracks(kept, times, now) && Spaced(times) && |kept| < MAX_ATTEMPTS
    ensures Spaced(times + [now]) && Tracks(kept + [now], times + [now], now)
  {
    var after := times + [now];
    forall i, j | 0 <= i < j < |after| && j - i >= MAX_ATTEMPTS ensures after[i] + ATTEMPT_SECONDS <= after[j] {
      if j == |times| { assert i < |times| - |kept|; }
    }
    assert after[|after| - |kept + [now]|..] == kept + [now];
  }

  /**
   The first part of a decision goes on only for the browser that opened the request, with its
   form, unexpired and with one choice. It leaves requests alone, and notes an attempt only where
   fewer than ten are recent.
   */
  lemma SubmitFacts(d: Desk, form: Form, now: real)
    ensures var r := SubmitDecision(d, form, now);
            var recent := Recent(AttemptsOf(d, form.id), now);
            && r.0.pending == d.pending && r.0.nextId == d.nextId
            && (r.1.Admitted? ==>
                  && form.id in d.pending && r.1.ticket.id == form.id && r.1.ticket.record == d.pending[form.id]
                  && form.cookie == Some(d.pending[form.id].browser) && form.csrf == d.pending[form.id].csrf
                  && now < d.pending[form.id].expires && |form.choices| == 1
                  && (r.1.ticket.choice == Deny <==> Deny in form.choices))
            && if r.1.Admitted? && r.1.ticket.choice != Deny then
                 |recent| < MAX_ATTEMPTS && r.0.attempts == d.attempts[form.id := recent + [now]]
               else
                 r.0.attempts == d.attempts || (form.id in d.pending && r.0.attempts == d.attempts[form.id := recent])
  {
    hide Recent;
    if Deny in form.choices && |form.choices| == 1 { OnlyChoice(form.choices, Deny); }
  }

  lemma SubmittingKeepsDesk(w: World, st: Step)
    requires st.Submit? && Fresh(w)
    ensures Submitting(w, st).desk.pending == w.desk.pending && Fresh(Submitting(w, st))
  {
    hide Recent, SubmitDecision;
    SubmitFacts(w.desk, st.form, Later(w, st.wait));
  }

  lemma SubmittingKeepsGround(s: Store, w: World, st: Step)
    requires st.Submit? && AllGrounded(s, w)
    ensures AllGrounded(s, Submitting(w, st))
  {
    hide Grounded, Recent, SubmitDecision;
    SubmitFacts(w.desk, st.form, Later(w, st.wait));
  }

  lemma NothingSpaced()
    ensures Spaced([])
  {
  }

  /** One request's old attempts were dropped, and one more was noted if it was let through among fewer than ten. */
  ghost predicate Attempted(w: World, w': World, id: RequestId) {
    && w.clock <= w'.clock && w'.desk.pending == w.desk.pending && id in w.desk.pending
    && (forall other: RequestId :: other != id ==> AttemptsOf(w'.desk, other) == AttemptsOf(w.desk, other))
    && var recent := Recent(AttemptsOf(w.desk, id), w'.clock);
       if w'.admitted == w.admitted then AttemptsOf(w'.desk, id) == recent
       else
         && |recent| < MAX_ATTEMPTS && AttemptsOf(w'.desk, id) == recent + [w'.clock]
         && w'.admitted == w.admitted[id := AdmittedOf(w, id) + [w'.clock]]
  }

  lemma AttemptKeepsThrottle(w: World, w': World, id: RequestId)
    requires Throttled(w) && Attempted(w, w', id)
    ensures Throttled(w')
  {
    hide Tracks, Spaced, Recent;
    var recent := Recent(AttemptsOf(w.desk, id), w'.clock);
    TracksRecent(AttemptsOf(w.desk, id), AdmittedOf(w, id), w.clock, w'.clock);
    if w'.admitted != w.admitted {
      NothingSpaced();
      AdmitKeeps(recent, AdmittedOf(w, id), w'.clock);
    }
    forall other <- w'.desk.pending ensures Tracks(AttemptsOf(w'.desk, other), AdmittedOf(w', other), w'.clock) {
      if other != id { TracksLater(AttemptsOf(w.desk, other), AdmittedOf(w, other), w.clock, w'.clock); }
    }
  }

  lemma SubmittingAttempts(w: World, st: Step)
    requires st.Submit?
    ensures Unattempted(w, Submitting(w, st)) || Attempted(w, Submitting(w, st), st.form.id)
  {
    hide Recent, SubmitDecision;
    SubmitFacts(w.desk, st.form, Later(w, st.wait));
    assert |AdmittedOf(w, st.form.id) + [Later(w, st.wait)]| != |AdmittedOf(w, st.form.id)|;
  }

  // resuming

  /** A decision only removes from the desk, and consumes only a request that is pending as its ticket says. */
  lemma ResumeFacts(d: Desk, s: Store, t: Ticket, v: Verification, g: Guard, now: real, at: real)
    ensures var r := ResumeDecision(d, s, t, v, g, now, at);
            && (r.0.pending == d.pending || r.0.pending == Without(d.pending, t.id))
            && (r.0.attempts == d.attempts || (r.0.attempts == Without(d.attempts, t.id) && t.id !in r.0.pending))
            && r.0.nextId == d.nextId
            && (Consumes(r.2) ==> t.id in d.pending && d.pending[t.id] == t.record && t.id !in r.0.pending)
            && (CodeOf(r.2).None? ==> r.1 == s)
            && (CodeOf(r.2).Some? ==> r.1 == Apply(s, Approval(t.record, at)).0)
  {
    hide ValidateConsent;
  }

  lemma WithoutKeeps<K, V>(rows: map<K, V>, key: K)
    ensures forall k <- Without(rows, key) :: k in rows && Without(rows, key)[k] == rows[k]
  {
  }

  /** What one resumed decision does to the world, apart from the desk's attempts. */
  lemma ResumingFacts(w: World, st: Step)
    requires st.Resume? && st.flight in w.flying
    ensures var w' := Resuming(w, st);
            && w'.desk.pending.Keys <= w.desk.pending.Keys && w'.desk.attempts.Keys <= w.desk.attempts.Keys
            && (forall id <- w'.desk.pending :: w'.desk.pending[id] == w.desk.pending[id])
            && w'.desk.nextId == w.desk.nextId && w'.admitted == w.admitted && w'.openedAt == w.openedAt
            && w'.clock >= w.clock
            && (forall f <- w'.flying :: f in w.flying && w'.flying[f] == w.flying[f])
            && (w'.decided == w.decided
                || exists f :: f in w.flying && w.flying[f].id in w.desk.pending && w.flying[f].id !in w'.desk.pending
                               && |w'.decided| == |w.decided| + 1 && w'.decided[..|w.decided|] == w.decided
                               && w'.decided[|w.decided|].ticket == w.flying[f])
  {
    hide ResumeDecision, Apply;
    var t := w.flying[st.flight];
    ResumeFacts(w.desk, w.store, t, st.verification, st.guard, Later(w, st.wait), st.at);
    WithoutKeeps(w.flying, st.flight);
  }

  lemma ResumingKeepsDesk(w: World, st: Step)
    requires st.Resume? && st.flight in w.flying && |w.desk.pending| <= MAX_PENDING
    ensures |Resuming(w, st).desk.pending| <= MAX_PENDING
  {
    ResumingFacts(w, st);
    hide Resuming;
    var w' := Resuming(w, st);
    assert |w'.desk.pending| == |w'.desk.pending.Keys| && |w.desk.pending| == |w.desk.pending.Keys|;
    SubsetSize(w'.desk.pending.Keys, w.desk.pending.Keys);
  }

  lemma ResumingKeepsFresh(w: World, st: Step)
    requires st.Resume? && st.flight in w.flying && Fresh(w) && DecidedOnce(w.decided)
    ensures Fresh(Resuming(w, st)) && DecidedOnce(Resuming(w, st).decided)
  {
    ResumingFacts(w, st);
    hide Resuming;
  }

  lemma ResumingKeepsGround(s: Store, w: World, st: Step)
    requires st.Resume? && st.flight in w.flying && w.store == Run(s, w.history) && AllGrounded(s, w)
    ensures Resuming(w, st).store == Run(s, Resuming(w, st).history) && AllGrounded(s, Resuming(w, st))
  {
    hide ResumeDecision, Apply, Run, Grounded;
    var t := w.flying[st.flight];
    ResumeFacts(w.desk, w.store, t, st.verification, st.guard, Later(w, st.wait), st.at);
    RunAppend(s, w.history, Approval(t.record, st.at));
    AllStillGrounded(s, w, Approval(t.record, st.at));
  }

  lemma ResumingAttemptsNothing(w: World, st: Step)
    requires st.Resume? && st.flight in w.flying
    ensures Unattempted(w, Resuming(w, st))
  {
    hide ResumeDecision, Apply;
    ResumeFacts(w.desk, w.store, w.flying[st.flight], st.verification, st.guard, Later(w, st.wait), st.at);
  }

  lemma StepKeepsWorld(s: Store, w: World, st: Step)
    requires WorldInv(s, w)
    ensures WorldInv(s, Next(w, st))
  {
    hide Run, Apply, OpenConsent, SubmitDecision, ResumeDecision, Fresh, AllGrounded, Throttled, Unattempted, Attempted;
    if st.Open? {
      OpeningKeepsDesk(w, st);
      OpeningKeepsGround(s, w, st);
      OpeningAttemptsNothing(w, st);
      UnattemptedKeepsThrottle(w, Next(w, st));
    } else if st.Submit? {
      SubmittingKeepsDesk(w, st);
      SubmittingKeepsGround(s, w, st);
      SubmittingAttempts(w, st);
      if Unattempted(w, Next(w, st)) {
        UnattemptedKeepsThrottle(w, Next(w, st));
      } else {
        AttemptKeepsThrottle(w, Next(w, st), st.form.id);
      }
    } else if st.Resume? && st.flight in w.flying {
      ResumingKeepsDesk(w, st);
      ResumingKeepsFresh(w, st);
      ResumingKeepsGround(s, w, st);
      ResumingAttemptsNothing(w, st);
      UnattemptedKeepsThrottle(w, Next(w, st));
    } else if st.Transact? {
      TransactKeeps(s, w, st.command);
    } else if st.Restart? {
      RestartKeeps(s, w, st.knownTools);
    }
  }

  lemma StartInv(s: Store)
    ensures WorldInv(s, Start(s))
  {
  }

  lemma {:induction false} RunKeepsWorld(s: Store, w: World, steps: seq<Step>)
    requires WorldInv(s, w)
    ensures WorldInv(s, RunWorld(w, steps))
    decreases |steps|
  {
    if steps != [] {
      hide WorldInv, Next;
      StepKeepsWorld(s, w, steps[0]);
      RunKeepsWorld(s, Next(w, steps[0]), steps[1..]);
    }
  }

  // ----- over whole runs

  /** However decisions interleave, a request is consumed by at most one, and the table stays bounded. */
  lemma NeverDecidedTwice(s: Store, steps: seq<Step>)
    ensures var w := RunWorld(Start(s), steps);
            && DecidedOnce(w.decided) && |w.desk.pending| <= MAX_PENDING
            && forall k :: 0 <= k < |w.decided| ==> w.decided[k].ticket.id !in w.desk.pending
  {
    StartInv(s);
    RunKeepsWorld(s, Start(s), steps);
  }

  lemma FlyingGrounded(s: Store, w: World, flight: nat)
    requires WorldInv(s, w) && flight in w.flying
    ensures w.store == Run(s, w.history)
    ensures Grounded(s, w.history, w.openedAt, w.flying[flight].id, w.flying[flight].record)
  {
    hide Grounded, Run;
  }

  /** The code is fresh, for the callback and challenge of the consent, on a grant of exactly its permissions. */
  ghost predicate CodeFor(s: Store, code: Secret, c: Consent) {
    && code in s.codes && !s.codes[code].consumed && s.codes[code].redirect == c.redirect
    && c.challenge == Some(s.codes[code].challenge) && s.codes[code].grant in s.grants
    && var g := s.grants[s.codes[code].grant];
       !g.revoked && g.owner == c.owner && g.device == c.device && g.client == c.client && g.tools == c.tools
  }

  lemma CodeFacts(d: Desk, s: Store, t: Ticket, v: Verification, g: Guard, now: real, at: real)
    requires CodeOf(ResumeDecision(d, s, t, v, g, now, at).2).Some?
    ensures var r := ResumeDecision(d, s, t, v, g, now, at);
            && t.choice != Deny && v == Verified && now < t.record.expires && (t.choice == Passkey ==> g == Held)
            && t.id in d.pending && d.pending[t.id] == t.record && t.id !in r.0.pending
            && Apply(s, Approval(t.record, at)) == (r.1, CodeIssued(CodeOf(r.2).value))
            && CodeFor(r.1, CodeOf(r.2).value, t.record.consent)
  {
    hide Registered;
  }

  lemma {:induction false} RunSplit(s: Store, commands: seq<Command>, k: nat)
    requires k <= |commands|
    ensures Run(Run(s, commands[..k]), commands[k..]) == Run(s, commands)
    decreases k
  {
    hide Apply;
    if k == 0 {
      assert commands[..0] == [] && commands[0..] == commands;
    } else {
      RunSplit(Apply(s, commands[0]).0, commands[1..], k - 1);
      assert commands[..k][1..] == commands[1..][..k - 1] && commands[1..][k - 1..] == commands[k..];
    }
  }

  lemma UnrenewedSince(s: Store, w: World, t: Ticket, at: real)
    requires w.store == Run(s, w.history) && Grounded(s, w.history, w.openedAt, t.id, t.record)
    requires Apply(w.store, Approval(t.record, at)).1.CodeIssued?
    ensures t.id in w.openedAt && w.openedAt[t.id] <= |w.history|
    ensures Renewals(Run(s, w.history[..w.openedAt[t.id]]), w.history[w.openedAt[t.id]..], t.record.consent.device) == 0
  {
    hide Renewals, Apply, ValidateConsent, Run;
    var k := w.openedAt[t.id];
    RunSplit(s, w.history, k);
    ApprovalMeansNoRenewal(Run(s, w.history[..k]), w.history[k..], t.record.consent, t.record.generation, at);
  }

  /**
   A code is made only by a decision that was verified, on a request still pending, unexpired and
   the one the decision began with, on a device that was never revoked, reset or re-enabled since
   the request was opened; and the code is for what was asked then.
   */
  lemma CodeNeedsConsent(s: Store, steps: seq<Step>, st: Step)
    ensures var w := RunWorld(Start(s), steps);
            var w' := Next(w, st);
            |w'.decided| > |w.decided| && w'.decided[|w.decided|].code.Some? ==>
              var d := w'.decided[|w.decided|];
              var t := d.ticket;
              && w'.decided == w.decided + [d]
              && t.choice != Deny && d.verification == Verified && d.at == w'.clock < t.record.expires
              && st.Resume? && (t.choice == Passkey ==> st.guard == Held)
              && t.id in w.desk.pending && w.desk.pending[t.id] == t.record && t.id !in w'.desk.pending
              && CodeFor(w'.store, d.code.value, t.record.consent)
              && t.id in w.openedAt && w.openedAt[t.id] <= |w.history|
              && Renewals(Run(s, w.history[..w.openedAt[t.id]]), w.history[w.openedAt[t.id]..],
                          t.record.consent.device) == 0
  {
    hide Run, Renewals, Apply, WorldInv, ResumeDecision, OpenConsent, SubmitDecision, Grounded, CodeFor;
    var w := RunWorld(Start(s), steps);
    StartInv(s);
    RunKeepsWorld(s, Start(s), steps);
    var w' := Next(w, st);
    if |w'.decided| > |w.decided| && w'.decided[|w.decided|].code.Some? {
      assert st.Resume? && st.flight in w.flying;
      FlyingGrounded(s, w, st.flight);
      var t := w.flying[st.flight];
      CodeFacts(w.desk, w.store, t, st.verification, st.guard, Later(w, st.wait), st.at);
      UnrenewedSince(s, w, t, st.at);
    }
  }
}
