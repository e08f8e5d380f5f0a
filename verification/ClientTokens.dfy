/**
 The renewing client of src/anywhere_computer/client_tokens.py.

 The operating system's credential store is one vault item. A write that fails may or may
 not have landed; a process may die at any point. Both are part of the `Weather` of a call.
 */
module ClientTokens {
  import opened Outcomes
  import opened Authorization

  /** A token reply that passed the client's field checks. */
  datatype Pair = Pair(access: Secret, refresh: Secret, expiresIn: int, scope: set<string>)

  datatype Phase = Ready | RefreshPending

  datatype Stored = Stored(phase: Phase, tokens: Pair, expiresAt: real)

  /** Nothing saved, something that does not parse, or a stored record. */
  datatype Vault = Absent | Garbled | Holds(record: Stored)

  datatype Write = Written | FailedButLanded | FailedAndLost

  datatype Response = Lost | Denied | Renewed(pair: Pair)

  datatype Answer =
    | HandedOut(access: Secret)
    | Finished
    | AuthorizationRequired
    | OutcomeUnknown
    | CredentialError
    | Died

  predicate ValidPair(p: Pair) {
    1 <= p.expiresIn <= TOKEN_SECONDS
  }

  function Margin(expiresIn: int): real {
    if expiresIn as real / 10.0 < 60.0 then expiresIn as real / 10.0 else 60.0
  }

  datatype Decision = Refuse(answer: Answer) | Use(token: Secret) | Renew(record: Stored)

  /** What a call does with the vault as read: hand the token out, renew it, or refuse. */
  function Decide(vault: Vault, rejected: Option<Secret>, now: real): Decision {
    match vault
    case Absent => Refuse(AuthorizationRequired)
    case Garbled => Refuse(AuthorizationRequired)
    case Holds(record) =>
      if record.phase.RefreshPending? then Refuse(OutcomeUnknown)
      else if rejected != Some(record.tokens.access) && now < record.expiresAt - Margin(record.tokens.expiresIn)
      then Use(record.tokens.access)
      else Renew(record)
  }

  /** The record to save for a rotation response, if it is an acceptable successor. */
  function Successor(record: Stored, renewed: Pair, started: real, now: real): Option<Stored> {
    if || !ValidPair(renewed)
       || renewed.refresh == record.tokens.refresh
       || renewed.access == record.tokens.access
       || renewed.scope != record.tokens.scope
       || started + renewed.expiresIn as real <= now
       || started + renewed.expiresIn as real <= 0.0
    then None
    else Some(Stored(Ready, renewed, started + renewed.expiresIn as real))
  }

  /** The record to save for a freshly authorized pair. */
  function Installed(pair: Pair, requestedAt: real, now: real): Option<Stored> {
    if || !ValidPair(pair)
       || requestedAt > now
       || requestedAt + pair.expiresIn as real <= now
       || requestedAt + pair.expiresIn as real <= 0.0
    then None
    else Some(Stored(Ready, pair, requestedAt + pair.expiresIn as real))
  }

  function Pending(record: Stored): Stored {
    record.(phase := RefreshPending)
  }

  function AfterWrite(vault: Vault, record: Stored, write: Write): Vault {
    if write.FailedAndLost? then vault else Holds(record)
  }

  /** Everything outside the client during one call, including where the process dies. */
  datatype Weather = Weather(
    readable: bool, now: real,
    intent: Write, diesAfterIntent: bool,
    started: real, response: Response, diesWaiting: bool,
    arrived: real, replacement: Write)

  // ----- what a call does to the world, in order

  /** A write to the vault, or a refresh token handed to the network. */
  datatype Action = Saves(record: Stored, write: Write) | Sends(refresh: Secret)

  function VaultAfter(vault: Vault, actions: seq<Action>): Vault {
    if actions == [] then vault
    else
      var before := VaultAfter(vault, actions[..|actions| - 1]);
      var last := actions[|actions| - 1];
      if last.Saves? then AfterWrite(before, last.record, last.write) else before
  }

  function SentIn(actions: seq<Action>): seq<Secret> {
    if actions == [] then []
    else
      var last := actions[|actions| - 1];
      SentIn(actions[..|actions| - 1]) + if last.Sends? then [last.refresh] else []
  }

  /** The actions of one call for a token, in the order in which it takes them. */
  function Call(vault: Vault, rejected: Option<Secret>, weather: Weather): seq<Action> {
    if !weather.readable || !Decide(vault, rejected, weather.now).Renew? then []
    else
      var record := Decide(vault, rejected, weather.now).record;
      [Saves(Pending(record), weather.intent)] +
      if weather.intent != Written || weather.diesAfterIntent then []
      else
        [Sends(record.tokens.refresh)] +
        if weather.diesWaiting || !weather.response.Renewed? then []
        else
          match Successor(record, weather.response.pair, weather.started, weather.arrived)
          case None => []
          case Some(next) => [Saves(next, weather.replacement)]
  }

  /** What the caller is told. */
  function Told(vault: Vault, rejected: Option<Secret>, weather: Weather): Answer {
    if !weather.readable then CredentialError
    else
      match Decide(vault, rejected, weather.now)
      case Refuse(answer) => answer
      case Use(token) => HandedOut(token)
      case Renew(record) =>
        if weather.intent != Written then CredentialError
        else if weather.diesAfterIntent || weather.diesWaiting then Died
        else
          match weather.response
          case Lost => OutcomeUnknown
          case Denied => AuthorizationRequired
          case Renewed(pair) =>
            var next := Successor(record, pair, weather.started, weather.arrived);
            if next.None? || weather.replacement != Written then OutcomeUnknown else HandedOut(next.value.tokens.access)
  }

  /**
   A refresh token leaves only once the intent to send it is saved: whatever the weather, a call
   sends at most one, that of the record that was ready, and just before that the vault held its
   pending form.
   */
  lemma SentOnlyAfterIntent(vault: Vault, rejected: Option<Secret>, weather: Weather, k: nat)
    requires var actions := Call(vault, rejected, weather); k < |actions| && actions[k].Sends?
    ensures var actions := Call(vault, rejected, weather);
            && k == 1 && vault.Holds? && vault.record.phase.Ready?
            && actions[1] == Sends(vault.record.tokens.refresh)
            && actions[0] == Saves(Pending(vault.record), Written)
            && VaultAfter(vault, actions[..k]) == Holds(Pending(vault.record))
            && SentIn(actions) == [vault.record.tokens.refresh]
  {
    var actions := Call(vault, rejected, weather);
    assert actions[..1] == [Saves(Pending(vault.record), Written)] && actions[..1][..0] == [];
    assert SentIn(actions[..1]) == [];
    var two := actions[..2];
    assert two[..1] == actions[..1] && two == [actions[0], actions[1]];
    assert SentIn(two) == [vault.record.tokens.refresh];
    if |actions| == 2 { assert two == actions; } else { assert actions[..2] == two && !actions[2].Sends?; }
  }

  /** A token handed out was in the vault and trusted, or is in it now as the successor just saved. */
  lemma HandedOutIsSaved(vault: Vault, rejected: Option<Secret>, weather: Weather)
    requires Told(vault, rejected, weather).HandedOut?
    ensures var token := Told(vault, rejected, weather).access;
            var after := VaultAfter(vault, Call(vault, rejected, weather));
            && after.Holds? && after.record.phase.Ready? && after.record.tokens.access == token
            && (Call(vault, rejected, weather) == [] ==>
                  && rejected != Some(token)
                  && weather.now < after.record.expiresAt - Margin(after.record.tokens.expiresIn))
  {
    if Decide(vault, rejected, weather.now).Renew? {
      var actions := Call(vault, rejected, weather);
      assert |actions| == 3 && actions[2].Saves?;
    }
  }

  // ----- when which answer is given, on the fields of the record

  /** More than a minute, or more than a tenth of its lifetime, is left to the record's access token. */
  predicate Lasting(record: Stored, now: real) {
    record.expiresAt - now > 60.0 || 10.0 * (record.expiresAt - now) > record.tokens.expiresIn as real
  }

  /**
   A call hands out the saved token and does nothing else exactly while the record is ready, its
   token is not the rejected one, and enough of its lifetime is left. Each other vault is refused
   for its own reason, or renewed, which begins with saving the record as pending.
   */
  lemma AnsweredFromVaultExactly(vault: Vault, rejected: Option<Secret>, weather: Weather)
    ensures var told, actions := Told(vault, rejected, weather), Call(vault, rejected, weather);
            && (told.HandedOut? && actions == [] <==>
                  && weather.readable && vault.Holds? && vault.record.phase == Ready
                  && rejected != Some(vault.record.tokens.access) && Lasting(vault.record, weather.now))
            && (told.HandedOut? && actions == [] ==> told.access == vault.record.tokens.access)
            && (actions != [] <==>
                  && weather.readable && vault.Holds? && vault.record.phase == Ready
                  && (rejected == Some(vault.record.tokens.access) || !Lasting(vault.record, weather.now)))
            && (actions != [] ==> actions[0] == Saves(vault.record.(phase := RefreshPending), weather.intent))
            && (actions == [] && !told.HandedOut? ==>
                  told == if !weather.readable then CredentialError
                          else if vault.Holds? then OutcomeUnknown else AuthorizationRequired)
  {
  }

  lemma VaultAfterNext(vault: Vault, actions: seq<Action>, action: Action)
    ensures VaultAfter(vault, actions + [action])
            == if action.Saves? && action.write != FailedAndLost then Holds(action.record)
               else VaultAfter(vault, actions)
  {
    assert (actions + [action])[..|actions|] == actions;
  }

  /** The reply may replace the record: two new tokens of the same scope, alive on arrival, at most fifteen minutes. */
  predicate Replaces(tokens: Pair, reply: Pair, started: real, arrived: real) {
    && reply.access != tokens.access && reply.refresh != tokens.refresh && reply.scope == tokens.scope
    && 1 <= reply.expiresIn <= 900
    && arrived < started + reply.expiresIn as real && 0.0 < started + reply.expiresIn as real
  }

  /**
   A renewal hands out the token of the reply exactly when the intent was saved, the process
   lived, the reply may replace the record and was saved; its record counts from the sending. Each
   way to fail has its own answer, and nothing is sent before the intent is surely saved.
   */
  lemma RenewalAnsweredExactly(vault: Vault, rejected: Option<Secret>, weather: Weather)
    requires Call(vault, rejected, weather) != []
    ensures var told, actions := Told(vault, rejected, weather), Call(vault, rejected, weather);
            var sent := weather.intent == Written && !weather.diesAfterIntent;
            var heard := sent && !weather.diesWaiting;
            var saves := && heard && weather.response.Renewed?
                         && Replaces(vault.record.tokens, weather.response.pair, weather.started, weather.arrived);
            && vault.Holds?
            && |actions| == 1 + (if sent then 1 else 0) + (if saves then 1 else 0)
            && (sent ==> actions[1] == Sends(vault.record.tokens.refresh))
            && (saves ==>
                  var pair := weather.response.pair;
                  actions[2] == Saves(Stored(Ready, pair, weather.started + pair.expiresIn as real),
                                      weather.replacement))
            && (told.HandedOut? <==> saves && weather.replacement == Written)
            && (told.HandedOut? ==> told.access == weather.response.pair.access)
            && (told == CredentialError <==> weather.intent != Written)
            && (told == Died <==> weather.intent == Written && !heard)
            && (told == AuthorizationRequired <==> heard && weather.response == Denied)
            && (told == OutcomeUnknown <==> heard && weather.response != Denied && !told.HandedOut?)
  {
  }

  /** A renewal leaves the vault with the last record whose write was not lost. */
  lemma RenewalLeaves(vault: Vault, rejected: Option<Secret>, weather: Weather)
    requires Call(vault, rejected, weather) != []
    ensures var actions := Call(vault, rejected, weather);
            VaultAfter(vault, actions)
            == if |actions| == 3 && weather.replacement != FailedAndLost then
                 Holds(Stored(Ready, weather.response.pair, weather.started + weather.response.pair.expiresIn as real))
               else if weather.intent != FailedAndLost then Holds(vault.record.(phase := RefreshPending))
               else vault
  {
    var actions := Call(vault, rejected, weather);
    AnsweredFromVaultExactly(vault, rejected, weather);
    RenewalAnsweredExactly(vault, rejected, weather);
    hide Call, Told, VaultAfter, Replaces;
    VaultAfterNext(vault, [], actions[0]);
    assert VaultAfter(vault, []) == vault;
    assert [] + [actions[0]] == [actions[0]];
    if |actions| == 1 { assert actions == [actions[0]]; }
    if |actions| >= 2 { VaultAfterNext(vault, [actions[0]], actions[1]); }
    if |actions| == 2 { assert actions == [actions[0]] + [actions[1]]; }
    if |actions| == 3 {
      VaultAfterNext(vault, [actions[0]] + [actions[1]], actions[2]);
      assert actions == [actions[0]] + [actions[1]] + [actions[2]];
    }
  }

  /**
   A new pair is installed exactly if it lives at most fifteen minutes from its request, which is
   past, and still lives; once saved it is handed out, without renewal, exactly while it lasts.
   */
  lemma InstalledIsHandedOut(pair: Pair, requestedAt: real, now: real, weather: Weather)
    requires weather.readable
    ensures var ends := requestedAt + pair.expiresIn as real;
            && (Installed(pair, requestedAt, now).Some? <==>
                  1 <= pair.expiresIn <= 900 && requestedAt <= now < ends && 0.0 < ends)
            && (Installed(pair, requestedAt, now).Some? ==>
                  var vault := Holds(Installed(pair, requestedAt, now).value);
                  && vault.record.tokens == pair && vault.record.phase == Ready
                  && (Told(vault, None, weather) == HandedOut(pair.access) && Call(vault, None, weather) == [] <==>
                        ends - weather.now > 60.0 || 10.0 * (ends - weather.now) > pair.expiresIn as real))
  {
  }

  // ----- several calls, of any processes, on one vault

  datatype Request = Request(rejected: Option<Secret>, weather: Weather)

  function VaultAfterCalls(vault: Vault, requests: seq<Request>): Vault {
    if requests == [] then vault
    else
      var before := VaultAfterCalls(vault, requests[..|requests| - 1]);
      var last := requests[|requests| - 1];
      VaultAfter(before, Call(before, last.rejected, last.weather))
  }

  /** Everything that the calls do to the world, in order. */
  function CallsDo(vault: Vault, requests: seq<Request>): seq<Action> {
    if requests == [] then []
    else
      var before := VaultAfterCalls(vault, requests[..|requests| - 1]);
      var last := requests[|requests| - 1];
      CallsDo(vault, requests[..|requests| - 1]) + Call(before, last.rejected, last.weather)
  }

  /** A record with a lasting token serves every call that does not reject this token, and stays as it is. */
  lemma {:induction false} LastingRecordServes(vault: Vault, requests: seq<Request>)
    requires vault.Holds? && vault.record.phase == Ready
    requires forall k :: 0 <= k < |requests| ==>
               && requests[k].rejected != Some(vault.record.tokens.access)
               && requests[k].weather.readable && Lasting(vault.record, requests[k].weather.now)
    ensures VaultAfterCalls(vault, requests) == vault && CallsDo(vault, requests) == []
    ensures forall k :: 0 <= k < |requests| ==>
              Told(VaultAfterCalls(vault, requests[..k]), requests[k].rejected, requests[k].weather)
              == HandedOut(vault.record.tokens.access)
  {
    if requests != [] {
      var fewer := requests[..|requests| - 1];
      LastingRecordServes(vault, fewer);
      forall k | 0 <= k < |requests| ensures VaultAfterCalls(vault, requests[..k]) == vault {
        if k < |fewer| {
          LastingRecordServes(vault, requests[..k]);
        } else {
          assert requests[..k] == fewer;
        }
      }
    }
  }

  /**
   Calls rejected with one token renew it once: after one that was told another token, any number
   of further ones, in whatever processes, are handed that token, as long as it lasts; they send
   nothing and leave the vault alone. So where the record held the rejected token, its refresh
   token is all that is ever sent.
   */
  lemma RejectedTokenIsRenewedOnce(vault: Vault, rejected: Secret, first: Weather, later: seq<Request>)
    requires Told(vault, Some(rejected), first).HandedOut? && Told(vault, Some(rejected), first).access != rejected
    requires var after := VaultAfter(vault, Call(vault, Some(rejected), first));
             && after.Holds?
             && forall k :: 0 <= k < |later| ==>
                  && later[k].rejected == Some(rejected) && later[k].weather.readable
                  && Lasting(after.record, later[k].weather.now)
    ensures var token := Told(vault, Some(rejected), first).access;
            var after := VaultAfter(vault, Call(vault, Some(rejected), first));
            && VaultAfterCalls(after, later) == after && CallsDo(after, later) == []
            && (forall k :: 0 <= k < |later| ==>
                  Told(VaultAfterCalls(after, later[..k]), Some(rejected), later[k].weather) == HandedOut(token))
            && (vault.record.tokens.access == rejected ==>
                  && SentIn(Call(vault, Some(rejected), first) + CallsDo(after, later)) == [vault.record.tokens.refresh]
                  && after.record.tokens == first.response.pair)
  {
    var actions := Call(vault, Some(rejected), first);
    HandedOutIsSaved(vault, Some(rejected), first);
    LastingRecordServes(VaultAfter(vault, actions), later);
    assert actions + [] == actions;
    if vault.record.tokens.access == rejected {
      RenewalAnsweredExactly(vault, Some(rejected), first);
      SentOnlyAfterIntent(vault, Some(rejected), first, 1);
    }
  }

  class ClientTokens {
    var vault: Vault
    /** Every write and every token handed to the network, in order. */
    ghost var trace: seq<Action>

    constructor ()
      ensures vault == Absent && trace == []
    {
      vault, trace := Absent, [];
    }

    method Save(record: Stored, write: Write) returns (saved: bool)
      modifies this
      ensures vault == AfterWrite(old(vault), record, write) && saved == write.Written?
      ensures trace == old(trace) + [Saves(record, write)]
    {
      if !write.FailedAndLost? { vault := Holds(record); }
      trace := trace + [Saves(record, write)];
      saved := write.Written?;
    }

    method Install(pair: Pair, requestedAt: real, now: real, write: Write) returns (answer: Answer)
      modifies this
      ensures match Installed(pair, requestedAt, now)
              case None => vault == old(vault) && trace == old(trace) && answer == AuthorizationRequired
              case Some(record) =>
                && vault == AfterWrite(old(vault), record, write) && trace == old(trace) + [Saves(record, write)]
                && answer == if write.Written? then Finished else CredentialError
    {
      var record := Installed(pair, requestedAt, now);
      if record.None? { return AuthorizationRequired; }
      var saved := Save(record.value, write);
      answer := if saved then Finished else CredentialError;
    }

    /**
     A token for a new request. Whatever the weather, the call writes and sends in the order of its
     actions: the intent first, then at most one refresh token, then its successor.
     */
    method AccessToken(rejected: Option<Secret>, weather: Weather) returns (answer: Answer)
      modifies this
      ensures trace == old(trace) + Call(old(vault), rejected, weather)
      ensures vault == VaultAfter(old(vault), Call(old(vault), rejected, weather))
      ensures answer == Told(old(vault), rejected, weather)
    {
      ghost var before := vault;
      ghost var actions := Call(vault, rejected, weather);
      if !weather.readable { return CredentialError; }
      var decision := Decide(vault, rejected, weather.now);
      if decision.Refuse? { return decision.answer; }
      if decision.Use? { return HandedOut(decision.token); }
      var record := decision.record;
      var saved := Save(Pending(record), weather.intent);
      assert actions[..1] == [actions[0]] && [actions[0]][..0] == [] && VaultAfter(before, actions[..1]) == vault;
      if !saved { return CredentialError; }
      if weather.diesAfterIntent { return Died; }
      trace := trace + [Sends(record.tokens.refresh)];
      assert actions[..2] == actions[..1] + [actions[1]] && actions[..2][..1] == actions[..1];
      assert VaultAfter(before, actions[..2]) == vault;
      if weather.diesWaiting { return Died; }
      if weather.response.Lost? { return OutcomeUnknown; }
      if weather.response.Denied? { return AuthorizationRequired; }
      var updated := Successor(record, weather.response.pair, weather.started, weather.arrived);
      if updated.None? { return OutcomeUnknown; }
      saved := Save(updated.value, weather.replacement);
      assert actions == actions[..2] + [Saves(updated.value, weather.replacement)];
      answer := if saved then HandedOut(updated.value.tokens.access) else OutcomeUnknown;
    }

    /** The vault may fail to read; a removal that fails may or may not have landed. */
    method Forget(readable: bool, removal: Write) returns (answer: Answer)
      modifies this`vault
      ensures vault == if !readable || removal.FailedAndLost? then old(vault) else Absent
      ensures answer == if readable && (old(vault) == Absent || removal.Written?) then Finished else CredentialError
    {
      if !readable { return CredentialError; }
      if vault.Absent? { return Finished; }
      if !removal.FailedAndLost? { vault := Absent; }
      answer := if removal.Written? then Finished else CredentialError;
    }
  }
}
