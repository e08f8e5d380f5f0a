/**
 The desk, the store and everybody who redeems: where codes are made at the desk alone, every
 token that the store accepts goes back to a decision of the owner.
 */
module ConsentedTokens {
  import opened Authorization
  import opened AuthorizationInvariants
  import opened AuthorizationTheorems
  import opened ConsentDesk
  import opened ConsentRuns

  /** No transaction approves a grant past the desk. */
  predicate DeskOnly(steps: seq<Step>) {
    forall st <- steps :: st.Transact? ==> !st.command.Approve?
  }

  ghost predicate Opens(s: Store, d: Decision, g: GrantId) {
    && d.verification == Verified && d.ticket.choice != Deny && d.at < d.ticket.record.expires
    && d.code.Some? && d.code.value in s.codes && s.codes[d.code.value].grant == g && g in s.grants
    && s.codes[d.code.value].redirect == d.ticket.record.consent.redirect
    && var row, c := s.grants[g], d.ticket.record.consent;
       row.owner == c.owner && row.device == c.device && row.client == c.client && row.tools == c.tools
  }

  /** A decision that was verified, in time and not a denial, and whose code opened the grant it consented to. */
  ghost predicate Consented(s: Store, decided: seq<Decision>, g: GrantId) {
    exists k :: 0 <= k < |decided| && Opens(s, decided[k], g)
  }

  ghost predicate AllConsented(s: Store, decided: seq<Decision>) {
    forall g <- s.grants :: Consented(s, decided, g)
  }

  /** Rows persist, so a decision keeps opening its grant. */
  lemma ConsentedLater(s: Store, s': Store, decided: seq<Decision>, more: seq<Decision>, g: GrantId)
    requires Consented(s, decided, g) && Evolves(s, s')
    ensures Consented(s', decided + more, g)
  {
    var k :| 0 <= k < |decided| && Opens(s, decided[k], g);
    assert Opens(s', (decided + more)[k], g);
  }

  lemma OthersOpenNoGrant(s: Store, c: Command)
    requires !c.Approve?
    ensures Apply(s, c).0.grants.Keys == s.grants.Keys
  {
    hide CurrentGrant, ValidateConsent, Retainable, FreeRefreshTokens;
  }

  lemma ApprovalOpensOne(s: Store, c: Command, g: GrantId)
    requires c.Approve? && Apply(s, c).1.CodeIssued? && g in Apply(s, c).0.grants
    ensures g in s.grants || g == Apply(s, c).0.codes[Apply(s, c).1.code].grant
  {
    hide ValidateConsent;
  }

  lemma TransactKeepsConsent(w: World, c: Command)
    requires Sound(w.store) && AllConsented(w.store, w.decided) && !c.Approve?
    ensures AllConsented(Apply(w.store, c).0, w.decided)
  {
    OthersOpenNoGrant(w.store, c);
    StepEvolves(w.store, c);
    hide Apply, Sound, Evolves, Consented;
    assert w.decided + [] == w.decided;
    forall g <- Apply(w.store, c).0.grants ensures Consented(Apply(w.store, c).0, w.decided, g) {
      ConsentedLater(w.store, Apply(w.store, c).0, w.decided, [], g);
    }
  }

  lemma NewlyConsented(s: Store, decided: seq<Decision>, d: Decision, g: GrantId)
    requires d.verification == Verified && d.ticket.choice != Deny && d.at < d.ticket.record.expires
    requires d.code.Some? && CodeFor(s, d.code.value, d.ticket.record.consent) && s.codes[d.code.value].grant == g
    ensures Consented(s, decided + [d], g)
  {
    assert Opens(s, (decided + [d])[|decided|], g);
  }

  lemma SameStoreConsented(s: Store, decided: seq<Decision>, more: seq<Decision>)
    requires AllConsented(s, decided)
    ensures AllConsented(s, decided + more)
  {
    hide Consented;
    forall g <- s.grants ensures Consented(s, decided + more, g) { ConsentedLater(s, s, decided, more, g); }
  }

  lemma ResumeKeepsConsent(w: World, st: Step)
    requires st.Resume? && Sound(w.store) && AllConsented(w.store, w.decided)
    ensures Sound(Next(w, st).store) && AllConsented(Next(w, st).store, Next(w, st).decided)
  {
    if st.flight in w.flying {
      var t := w.flying[st.flight];
      var now := Later(w, st.wait);
      var w' := Next(w, st);
      hide ResumeDecision, Apply, Sound, Consented, Evolves, CodeFor;
      ResumeFacts(w.desk, w.store, t, st.verification, st.guard, now, st.at);
      var r := ResumeDecision(w.desk, w.store, t, st.verification, st.guard, now, st.at);
      var more := if Consumes(r.2) then [Decision(t, st.verification, now, CodeOf(r.2))] else [];
      assert w'.decided == w.decided + more;
      if CodeOf(r.2).Some? {
        CodeFacts(w.desk, w.store, t, st.verification, st.guard, now, st.at);
        StepSound(w.store, Approval(t.record, st.at));
        StepEvolves(w.store, Approval(t.record, st.at));
        forall g <- w'.store.grants ensures Consented(w'.store, w'.decided, g) {
          ApprovalOpensOne(w.store, Approval(t.record, st.at), g);
          if g in w.store.grants {
            ConsentedLater(w.store, w'.store, w.decided, more, g);
          } else {
            NewlyConsented(w'.store, w.decided, more[0], g);
          }
        }
      } else {
        SameStoreConsented(w.store, w.decided, more);
      }
    }
  }

  lemma {:induction false} RunKeepsConsent(w: World, steps: seq<Step>)
    requires Sound(w.store) && AllConsented(w.store, w.decided) && DeskOnly(steps)
    ensures Sound(RunWorld(w, steps).store) && AllConsented(RunWorld(w, steps).store, RunWorld(w, steps).decided)
    decreases |steps|
  {
    if steps != [] {
      hide Sound, AllConsented, Apply, ResumeDecision, OpenConsent, SubmitDecision;
      var st := steps[0];
      assert st in steps;
      if st.Resume? {
        ResumeKeepsConsent(w, st);
      } else if st.Transact? {
        TransactKeepsConsent(w, st.command);
        StepSound(w.store, st.command);
      } else if st.Restart? {
        TransactKeepsConsent(w, Reopen(st.knownTools));
        StepSound(w.store, Reopen(st.knownTools));
      }
      RunKeepsConsent(Next(w, st), steps[1..]);
    }
  }

  /**
   However decisions, redemptions, refreshes and administration interleave: what a token verifies as
   is what the owner consented to in a decision that was verified and in time, for that very device,
   client and set of tools.
   */
  lemma VerifiedTokenWasConsented(resource: string, knownTools: set<string>, steps: seq<Step>, token: Secret, now: real)
    requires DeskOnly(steps)
    ensures var w := RunWorld(Start(Empty(resource, knownTools)), steps);
            var identity := Verify(w.store, token, resource, now);
            identity.Some? ==>
              exists k :: 0 <= k < |w.decided| && Opens(w.store, w.decided[k], identity.value.grant)
                          && w.decided[k].ticket.record.consent.tools == identity.value.tools
                          && w.decided[k].ticket.record.consent.owner == identity.value.owner
                          && w.decided[k].ticket.record.consent.device == identity.value.device
                          && w.decided[k].ticket.record.consent.client == identity.value.client
  {
    EmptyInv(resource, knownTools);
    var w0 := Start(Empty(resource, knownTools));
    assert AllConsented(w0.store, w0.decided);
    hide Sound;
    RunKeepsConsent(w0, steps);
    var w := RunWorld(w0, steps);
    hide RunWorld;
    var identity := Verify(w.store, token, resource, now);
    if identity.Some? {
      var g := identity.value.grant;
      assert g in w.store.grants && Consented(w.store, w.decided, g);
      var k :| 0 <= k < |w.decided| && Opens(w.store, w.decided[k], g);
    }
  }
}
