/**
 The consent desk of src/anywhere_computer/browser_authorization.py: pending requests, the window
 of authentication attempts, and a decision that awaits the owner's verification half-way.

 A decision runs in two uninterrupted parts. `Submit` runs up to the await and hands out a
 ticket; `Resume` runs from the verification's outcome to the reply. Anything may happen between
 the two. Request ids, browser cookies and form tokens are fresh values.
 */
module ConsentDesk {
  import opened Outcomes
  import opened Authorization

  type RequestId = nat

  const MAX_PENDING := 64
  const CONSENT_SECONDS := 300.0
  const MAX_ATTEMPTS := 10
  const ATTEMPT_SECONDS := 60.0

  /** A consent as opened; its generation is the device's at that moment. */
  datatype PendingConsent = PendingConsent(consent: Consent, generation: nat, browser: Secret, csrf: Secret,
                                           expires: real)

  datatype Choice = Password | Passkey | Deny

  datatype Form = Form(id: RequestId, cookie: Option<Secret>, csrf: Secret, choices: set<Choice>)

  datatype Ticket = Ticket(id: RequestId, record: PendingConsent, choice: Choice)

  /** What the owner's authenticator answers; Busy is a password check without a free slot. */
  datatype Verification = Verified | Rejected | Busy | Unavailable

  /** Whether the verified passkey can still be held while the code is made. */
  datatype Guard = Held | NoLongerEnrolled | TimedOut | StorageGone

  datatype Answer =
    | Page(id: RequestId)
    | Admitted(ticket: Ticket)
    | Redirected(code: Option<Secret>)
    | TooManyRequests | TooManyAttempts | BadRequest | Expired | NoCookie | Mismatch
    | AuthenticationBusy | AuthenticationUnavailable | WrongCredential | AlreadyProcessed
    | GuardFailed(guard: Guard)
    | StoreRefused(failure: Failure)

  datatype Desk = Desk(pending: map<RequestId, PendingConsent>, attempts: map<RequestId, seq<real>>, nextId: RequestId)

  // ----- one part at a time

  function Unexpired(pending: map<RequestId, PendingConsent>, now: real): map<RequestId, PendingConsent> {
    map id | id in pending && pending[id].expires > now :: pending[id]
  }

  function Kept(attempts: map<RequestId, seq<real>>, pending: map<RequestId, PendingConsent>)
    : map<RequestId, seq<real>>
  {
    map id | id in attempts && id in pending :: attempts[id]
  }

  function Pruned(d: Desk, now: real): Desk {
    var pending := Unexpired(d.pending, now);
    d.(pending := pending, attempts := Kept(d.attempts, pending))
  }

  function OpenConsent(d: Desk, s: Store, consent: Consent, wellFormed: bool, browser: Secret, csrf: Secret,
                       now: real): (Desk, Answer)
  {
    var live := Pruned(d, now);
    if |live.pending| >= MAX_PENDING then (live, TooManyRequests)
    else if !wellFormed then (live, BadRequest)
    else
      match ValidateConsent(s, consent.(generation := None))
      case Err(e) => (live, StoreRefused(e))
      case Ok(generation) =>
        (live.(pending := live.pending[d.nextId :=
                            PendingConsent(consent, generation, browser, csrf, now + CONSENT_SECONDS)],
               nextId := d.nextId + 1),
         Page(d.nextId))
  }

  /** The attempts of the last minute, oldest first. */
  function Recent(times: seq<real>, now: real): seq<real> {
    if times != [] && times[0] <= now - ATTEMPT_SECONDS then Recent(times[1..], now) else times
  }

  function AttemptsOf(d: Desk, id: RequestId): seq<real> {
    if id in d.attempts then d.attempts[id] else []
  }

  function SubmitDecision(d: Desk, form: Form, now: real): (Desk, Answer) {
    if form.id !in d.pending || d.pending[form.id].expires <= now then (d, Expired)
    else
      var record := d.pending[form.id];
      if form.cookie == None then (d, NoCookie)
      else if form.cookie.value != record.browser || form.csrf != record.csrf then (d, Mismatch)
      else if |form.choices| != 1 then (d, BadRequest)
      else if form.choices == {Deny} then (d, Admitted(Ticket(form.id, record, Deny)))
      else
        var recent := Recent(AttemptsOf(d, form.id), now);
        if |recent| >= MAX_ATTEMPTS then (d.(attempts := d.attempts[form.id := recent]), TooManyAttempts)
        else
          (d.(attempts := d.attempts[form.id := recent + [now]]),
           Admitted(Ticket(form.id, record, if Passkey in form.choices then Passkey else Password)))
  }

  function Without<K, V>(rows: map<K, V>, key: K): map<K, V> {
    map k | k in rows && k != key :: rows[k]
  }

  /** The command by which a decision makes its code. */
  function Approval(record: PendingConsent, at: real): Command {
    Approve(record.consent.(generation := Some(record.generation)), at)
  }

  function ResumeDecision(d: Desk, s: Store, ticket: Ticket, verification: Verification, guard: Guard, now: real,
                          at: real)
    : (Desk, Store, Answer)
  {
    if ticket.choice != Deny && verification == Unavailable then (d, s, AuthenticationUnavailable)
    else if ticket.choice != Deny && verification == Busy then (d, s, AuthenticationBusy)
    else if ticket.choice != Deny && verification == Rejected then (d, s, WrongCredential)
    else if ticket.record.expires <= now then (d, s, AlreadyProcessed)
    else
      var popped := d.(pending := Without(d.pending, ticket.id));
      if ticket.id !in d.pending || d.pending[ticket.id] != ticket.record then (popped, s, AlreadyProcessed)
      else
        var consumed := popped.(attempts := Without(d.attempts, ticket.id));
        if ticket.choice == Deny then (consumed, s, Redirected(None))
        else if ticket.choice == Passkey && guard != Held then (consumed, s, GuardFailed(guard))
        else
          var made := Apply(s, Approval(ticket.record, at));
          (consumed, made.0, if made.1.CodeIssued? then Redirected(Some(made.1.code)) else StoreRefused(made.1.failure))
  }

  lemma ApprovalAnswers(s: Store, c: Command)
    requires c.Approve?
    ensures Apply(s, c).1.CodeIssued? || Apply(s, c).1.Failed?
  {
  }

  // ----- the desk as an object

  lemma OnlyChoice(choices: set<Choice>, choice: Choice)
    requires |choices| == 1 && choice in choices
    ensures choices == {choice}
  {
    assert |choices - {choice}| == 0;
  }

  class BrowserAuthorization {
    const store: AuthorizationStore
    var pending: map<RequestId, PendingConsent>
    var attempts: map<RequestId, seq<real>>
    var nextId: RequestId

    function State(): Desk
      reads this
    {
      Desk(pending, attempts, nextId)
    }

    constructor (store: AuthorizationStore)
      ensures this.store == store && State() == Desk(map[], map[], 0)
    {
      this.store := store;
      pending, attempts, nextId := map[], map[], 0;
    }

    method Begin(consent: Consent, wellFormed: bool, browser: Secret, csrf: Secret, now: real) returns (answer: Answer)
      modifies this
      ensures OpenConsent(old(State()), store.State(), consent, wellFormed, browser, csrf, now) == (State(), answer)
    {
      pending := Unexpired(pending, now);
      attempts := Kept(attempts, pending);
      if |pending| >= MAX_PENDING { return TooManyRequests; }
      if !wellFormed { return BadRequest; }
      var checked := ValidateConsent(store.State(), consent.(generation := None));
      if checked.Err? { return StoreRefused(checked.error); }
      pending := pending[nextId := PendingConsent(consent, checked.value, browser, csrf, now + CONSENT_SECONDS)];
      answer := Page(nextId);
      nextId := nextId + 1;
    }

    /** A decision up to the await. */
    method Submit(form: Form, now: real) returns (answer: Answer)
      modifies this
      ensures SubmitDecision(old(State()), form, now) == (State(), answer)
    {
      if form.id !in pending || pending[form.id].expires <= now { return Expired; }
      var record := pending[form.id];
      if form.cookie.None? { return NoCookie; }
      if record.browser != form.cookie.value || record.csrf != form.csrf { return Mismatch; }
      if |form.choices| != 1 { return BadRequest; }
      if Deny in form.choices {
        OnlyChoice(form.choices, Deny);
        return Admitted(Ticket(form.id, record, Deny));
      }
      var times := if form.id in attempts then attempts[form.id] else [];
      while times != [] && times[0] <= now - ATTEMPT_SECONDS
        invariant Recent(times, now) == Recent(AttemptsOf(old(State()), form.id), now)
      {
        times := times[1..];
      }
      attempts := attempts[form.id := times];
      if |times| >= MAX_ATTEMPTS { return TooManyAttempts; }
      attempts := attempts[form.id := times + [now]];
      assert attempts == old(attempts)[form.id := times + [now]];
      answer := Admitted(Ticket(form.id, record, if Passkey in form.choices then Passkey else Password));
    }

    /** A decision from its verification's outcome on. */
    method Resume(ticket: Ticket, verification: Verification, guard: Guard, now: real, at: real)
      returns (answer: Answer)
      modifies this, store
      ensures ResumeDecision(old(State()), old(store.State()), ticket, verification, guard, now, at)
              == (State(), store.State(), answer)
    {
      hide Apply;
      if ticket.choice != Deny {
        if verification.Unavailable? { return AuthenticationUnavailable; }
        if verification.Busy? { return AuthenticationBusy; }
        if verification.Rejected? { return WrongCredential; }
      }
      if ticket.record.expires <= now { return AlreadyProcessed; }
      var stored := if ticket.id in pending then Some(pending[ticket.id]) else None;
      pending := Without(pending, ticket.id);
      if stored != Some(ticket.record) { return AlreadyProcessed; }
      attempts := Without(attempts, ticket.id);
      if ticket.choice == Deny { return Redirected(None); }
      if ticket.choice == Passkey && guard != Held { return GuardFailed(guard); }
      ApprovalAnswers(store.State(), Approval(ticket.record, at));
      var reply := store.Approve(ticket.record.consent.(generation := Some(ticket.record.generation)), at);
      answer := if reply.CodeIssued? then Redirected(Some(reply.code)) else StoreRefused(reply.failure);
    }
  }
}
