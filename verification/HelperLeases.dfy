/**
 The observation leases of native/macos/AXHelper.swift: an observation licenses the elements it
 saw, and a mutation consumes every lease before it can have an effect.
 */
module HelperLeases {
  import Collections
  import opened Outcomes
  import opened Traversal
  import opened Observation
  import opened Reachability

  type ObservationId = nat
  type Ref = nat

  const MAX_OBSERVATIONS := 128
  const OBSERVATION_SECONDS := 60.0

  datatype Lease = Lease(app: string, window: int, process: nat, elements: map<Ref, Element>, breadthFirst: bool,
                         expires: real)

  /** `licensed` records, in order, the observations whose leases mutations consumed. */
  datatype Session = Session(leases: map<ObservationId, Lease>, nextId: nat, licensed: seq<ObservationId>)

  datatype Refusal =
    | ObservationLimit | ObservationUnavailable | ObservationMismatch
    | ProcessChanged | ElementUnavailable | TreeLimitExceeded | TargetChanged | TargetAmbiguous | CheckFailed

  datatype Outcome = Observed(id: ObservationId) | Effected(element: Element) | Refused(reason: Refusal)

  /** A window as it is when a mutation arrives; `checks` stands for the reads made last. */
  datatype Window = Window(process: nat, graph: Graph, root: Element, checks: bool)

  datatype Request =
    | Observe(app: string, window: int, process: nat, elements: map<Ref, Element>, breadthFirst: bool, now: real,
              finished: real)
    | Mutate(app: string, window: int, observation: ObservationId, ref: Ref, now: real, current: Window,
             selector: Option<set<Element>>)

  function Prune(leases: map<ObservationId, Lease>, now: real): map<ObservationId, Lease> {
    map id | id in leases && leases[id].expires > now :: leases[id]
  }

  /** The live lease that licenses a mutation of this element. */
  predicate Licensed(leases: map<ObservationId, Lease>, app: string, window: int, observation: ObservationId, ref: Ref,
                     now: real)
  {
    && observation in leases && leases[observation].expires > now
    && leases[observation].app == app && leases[observation].window == window
    && ref in leases[observation].elements
  }

  /** Why a selector, given as the elements it describes now, does not name this element and no other. */
  function Unselected(current: Window, selector: Option<set<Element>>, element: Element): Option<Refusal> {
    match selector
    case None => None
    case Some(matching) =>
      if element !in matching then Some(Refusal.TargetChanged)
      else
        match UniqueIn(current.graph, SCAN, current.root, element, matching)
        case Confirmed => None
        case Ambiguous => Some(TargetAmbiguous)
        case TargetChanged => Some(Refusal.TargetChanged)
        case TreeLimit => Some(TreeLimitExceeded)
  }

  /** What comes of a mutation whose element was found. */
  function Finish(current: Window, selector: Option<set<Element>>, element: Element): Outcome {
    var unselected := Unselected(current, selector, element);
    if unselected.Some? then Refused(unselected.value)
    else if current.checks then Effected(element)
    else Refused(CheckFailed)
  }

  /** What a licensed mutation comes to, once all leases are gone. */
  function Attempt(lease: Lease, ref: Ref, current: Window, selector: Option<set<Element>>): Outcome
    requires ref in lease.elements
  {
    var start := [Item(current.root, 0)];
    if current.process != lease.process then Refused(ProcessChanged)
    else if Seen(Search(current.graph, TREE, lease.breadthFirst, start, []), lease.elements[ref]) then
      Finish(current, selector, lease.elements[ref])
    else if Stopped(current.graph, TREE, lease.breadthFirst, start, []) then Refused(TreeLimitExceeded)
    else Refused(ElementUnavailable)
  }

  function Serve(s: Session, r: Request): (Session, Outcome) {
    match r
    case Observe(app, window, process, elements, breadthFirst, now, finished) =>
      var live := Prune(s.leases, now);
      if |live| >= MAX_OBSERVATIONS then (s.(leases := live), Refused(ObservationLimit))
      else
        (s.(leases := live[s.nextId :=
                        Lease(app, window, process, elements, breadthFirst, finished + OBSERVATION_SECONDS)],
            nextId := s.nextId + 1),
         Observed(s.nextId))
    case Mutate(app, window, observation, ref, now, current, selector) =>
      var live := Prune(s.leases, now);
      if observation !in live then (s.(leases := live), Refused(ObservationUnavailable))
      else if !Licensed(live, app, window, observation, ref, now) then
        (s.(leases := live), Refused(ObservationMismatch))
      else (Session(map[], s.nextId, s.licensed + [observation]), Attempt(live[observation], ref, current, selector))
  }

  class HelperSession {
    var leases: map<ObservationId, Lease>
    var nextId: nat
    ghost var licensed: seq<ObservationId>

    ghost function State(): Session
      reads this
    {
      Session(leases, nextId, licensed)
    }

    constructor ()
      ensures State() == Session(map[], 0, [])
    {
      leases, nextId, licensed := map[], 0, [];
    }

    method Observe(app: string, window: int, process: nat, elements: map<Ref, Element>, breadthFirst: bool,
                   now: real, finished: real) returns (outcome: Outcome)
      modifies this
      ensures Serve(old(State()), Request.Observe(app, window, process, elements, breadthFirst, now, finished))
              == (State(), outcome)
    {
      leases := Prune(leases, now);
      if |leases| >= MAX_OBSERVATIONS { return Refused(ObservationLimit); }
      leases := leases[nextId := Lease(app, window, process, elements, breadthFirst, finished + OBSERVATION_SECONDS)];
      outcome := Observed(nextId);
      nextId := nextId + 1;
    }

    method Mutate(app: string, window: int, observation: ObservationId, ref: Ref, now: real, current: Window,
                  selector: Option<set<Element>>)
      returns (outcome: Outcome)
      modifies this
      ensures Serve(old(State()), Request.Mutate(app, window, observation, ref, now, current, selector))
              == (State(), outcome)
    {
      leases := Prune(leases, now);
      if observation !in leases { return Refused(ObservationUnavailable); }
      var lease := leases[observation];
      if lease.app != app || lease.window != window || ref !in lease.elements { return Refused(ObservationMismatch); }
      leases := map[];
      licensed := licensed + [observation];
      if current.process != lease.process { return Refused(ProcessChanged); }
      var located := LocateElement(current.graph, TREE, current.root, lease.elements[ref], lease.breadthFirst);
      match located
      case Absent => return Refused(ElementUnavailable);
      case LimitExceeded => return Refused(TreeLimitExceeded);
      case Found =>
        if selector.Some? {
          if lease.elements[ref] !in selector.value { return Refused(Refusal.TargetChanged); }
          var unique := VerifyUniqueSelector(current.graph, SCAN, current.root, lease.elements[ref], selector.value);
          if unique.Ambiguous? { return Refused(TargetAmbiguous); }
          if unique.TargetChanged? { return Refused(Refusal.TargetChanged); }
          if unique.TreeLimit? { return Refused(TreeLimitExceeded); }
        }
        if !current.checks { return Refused(CheckFailed); }
        outcome := Effected(lease.elements[ref]);
    }
  }

  function Sessions(s: Session, requests: seq<Request>): Session
    decreases |requests|
  {
    if requests == [] then s else Sessions(Serve(s, requests[0]).0, requests[1..])
  }

  ghost predicate SessionInv(s: Session) {
    && |s.leases| <= MAX_OBSERVATIONS
    && (forall id <- s.leases :: id < s.nextId)
    && (forall i :: 0 <= i < |s.licensed| ==> s.licensed[i] < s.nextId && s.licensed[i] !in s.leases)
    && (forall i, j :: 0 <= i < j < |s.licensed| ==> s.licensed[i] != s.licensed[j])
  }

  lemma PruneShrinks(leases: map<ObservationId, Lease>, now: real)
    ensures |Prune(leases, now)| <= |leases|
  {
    Collections.SubsetSize(Prune(leases, now).Keys, leases.Keys);
  }

  lemma ServeKeeps(s: Session, r: Request)
    requires SessionInv(s)
    ensures SessionInv(Serve(s, r).0)
  {
    hide Attempt;
    PruneShrinks(s.leases, r.now);
    if r.Observe? {
      assert |Prune(s.leases, r.now)[s.nextId := Lease(r.app, r.window, r.process, r.elements, r.breadthFirst, 0.0)]|
             == |Prune(s.leases, r.now)| + 1;
    }
  }

  lemma {:induction false} SessionsKeep(s: Session, requests: seq<Request>)
    requires SessionInv(s)
    ensures SessionInv(Sessions(s, requests))
    decreases |requests|
  {
    hide Serve, SessionInv;
    if requests != [] {
      ServeKeeps(s, requests[0]);
      SessionsKeep(Serve(s, requests[0]).0, requests[1..]);
    }
  }

  /** In every session, each observation licenses at most one mutation, and the lease table stays bounded. */
  lemma EachObservationLicensesOnce(requests: seq<Request>)
    ensures var s := Sessions(Session(map[], 0, []), requests);
            && |s.leases| <= MAX_OBSERVATIONS
            && forall i, j :: 0 <= i < j < |s.licensed| ==> s.licensed[i] != s.licensed[j]
  {
    SessionsKeep(Session(map[], 0, []), requests);
  }

  /** After a licensed mutation, whatever it came to, nothing is licensed until a new observation. */
  lemma {:induction false} NothingLicensedUntilObserved(s: Session, requests: seq<Request>, attempt: Request)
    requires s.leases == map[] && attempt.Mutate?
    requires forall r <- requests :: r.Mutate?
    ensures Serve(Sessions(s, requests), attempt).1 == Refused(ObservationUnavailable)
    ensures Sessions(s, requests).licensed == s.licensed
    decreases |requests|
  {
    hide Attempt;
    if requests != [] {
      assert requests[0].Mutate?;
      assert Prune(s.leases, requests[0].now) == map[];
      NothingLicensedUntilObserved(Serve(s, requests[0]).0, requests[1..], attempt);
    }
  }

  lemma SelectedIsUnique(current: Window, selector: Option<set<Element>>, element: Element)
    requires selector.Some? && Unselected(current, selector, element).None?
    ensures Only(current.graph, current.root, selector.value, element)
  {
    UniqueInJustified(current.graph, SCAN, current.root, element, selector.value);
  }

  /**
   An effect was licensed by a live lease of that very element, and the element is in the current
   window; asked for by a selector, it is the only one in the whole window that the selector describes.
   */
  lemma EffectWasLicensed(s: Session, r: Request)
    requires r.Mutate? && Serve(s, r).1.Effected?
    ensures Licensed(s.leases, r.app, r.window, r.observation, r.ref, r.now)
    ensures var lease := s.leases[r.observation];
            && lease.elements[r.ref] == Serve(s, r).1.element
            && lease.process == r.current.process
            && Reachable(r.current.graph, r.current.root, lease.elements[r.ref])
    ensures r.selector.Some? ==>
              Only(r.current.graph, r.current.root, r.selector.value, Serve(s, r).1.element)
    ensures Serve(s, r).0.leases == map[]
  {
    hide UniqueIn, Reachable, Seen, Search, Stopped, Only;
    var element := s.leases[r.observation].elements[r.ref];
    if r.selector.Some? { SelectedIsUnique(r.current, r.selector, element); }
    LocatedMeans(r.current.graph, TREE, r.current.root, s.leases[r.observation].elements[r.ref],
                 s.leases[r.observation].breadthFirst);
  }

  /**
   A mutation refused as absent, which is how the search for its element answered, names an element
   that the whole current window does not contain. An element found in another process is refused
   by the last checks, although under the same error code.
   */
  lemma AbsentMeansUnreachable(s: Session, r: Request)
    requires r.Mutate? && Serve(s, r).1 == Refused(ElementUnavailable)
    ensures Licensed(s.leases, r.app, r.window, r.observation, r.ref, r.now)
    ensures !Reachable(r.current.graph, r.current.root, s.leases[r.observation].elements[r.ref])
  {
    LocatedMeans(r.current.graph, TREE, r.current.root, s.leases[r.observation].elements[r.ref],
                 s.leases[r.observation].breadthFirst);
  }

  /** The observations whose leases are live. */
  function Live(s: Session, now: real): set<ObservationId> {
    set id | id in s.leases && now < s.leases[id].expires
  }

  lemma PruneKeepsLive(s: Session, now: real)
    ensures var live := Prune(s.leases, now);
            live.Keys == Live(s, now) && |live| == |Live(s, now)|
            && forall id <- Live(s, now) :: live[id] == s.leases[id]
  {
    var live := Prune(s.leases, now);
    assert live.Keys == Live(s, now) && |live| == |live.Keys|;
  }

  /** An observation is leased for a minute from its end exactly while fewer than 128 leases are live; dead ones go. */
  lemma ObservedExactly(s: Session, r: Request)
    requires r.Observe? && s.nextId !in s.leases
    ensures var (s', outcome) := Serve(s, r);
            && outcome == (if |Live(s, r.now)| < 128 then Observed(s.nextId) else Refused(ObservationLimit))
            && s'.leases.Keys == Live(s, r.now) + (if outcome.Observed? then {s.nextId} else {})
            && (forall id <- Live(s, r.now) :: s'.leases[id] == s.leases[id])
            && (outcome.Observed? ==>
                  s'.leases[s.nextId]
                  == Lease(r.app, r.window, r.process, r.elements, r.breadthFirst, r.finished + 60.0))
            && s'.licensed == s.licensed && s'.nextId == s.nextId + (if outcome.Observed? then 1 else 0)
  {
    PruneKeepsLive(s, r.now);
    hide Prune;
  }

  /**
   A mutation with a live lease of its element costs all leases, and one without costs none; it has
   its effect exactly if the process is the leased one, the search finds the element, the selector, if
   there is one, describes it and is confirmed, and the last checks hold.
   */
  lemma MutatedExactly(s: Session, r: Request)
    requires r.Mutate?
    ensures var (s', outcome) := Serve(s, r);
            if r.observation !in Live(s, r.now) then
              outcome == Refused(ObservationUnavailable) && s' == s.(leases := s'.leases)
              && s'.leases.Keys == Live(s, r.now)
            else
              var lease := s.leases[r.observation];
              if lease.app != r.app || lease.window != r.window || r.ref !in lease.elements then
                outcome == Refused(ObservationMismatch) && s' == s.(leases := s'.leases)
                && s'.leases.Keys == Live(s, r.now)
              else
                var element, start := lease.elements[r.ref], [Item(r.current.root, 0)];
                && s' == Session(map[], s.nextId, s.licensed + [r.observation])
                && (outcome == Effected(element) <==>
                      && r.current.process == lease.process && r.current.checks
                      && Seen(Search(r.current.graph, TREE, lease.breadthFirst, start, []), element)
                      && (r.selector.None?
                          || (&& element in r.selector.value
                              && UniqueIn(r.current.graph, SCAN, r.current.root, element, r.selector.value)
                                 == Confirmed)))
                && (outcome.Effected? ==> outcome.element == element)
                && (outcome == Refused(ProcessChanged) <==> r.current.process != lease.process)
                && (outcome == Refused(ElementUnavailable) <==>
                      && r.current.process == lease.process
                      && !Seen(Search(r.current.graph, TREE, lease.breadthFirst, start, []), element)
                      && !Stopped(r.current.graph, TREE, lease.breadthFirst, start, []))
  {
    PruneKeepsLive(s, r.now);
    hide Prune, UniqueIn, Seen, Search, Stopped;
  }

  /** The request observes this window, which leases what its walk leases: the tree's elements or the listed targets. */
  ghost predicate Observes(r: Request, v: View, root: Element, actionable: set<Element>) {
    && r.Observe?
    && forall ref <- r.elements ::
         r.elements[ref] in if r.breadthFirst then List(v, TREE, actionable, [Item(root, 0)], NO_TARGETS).leased
                            else Tree(v, TREE, root).leased
  }

  /** The request mutates a leased element of that observation, in time, on the same unchanged window. */
  ghost predicate Follows(s: Session, seen: Request, r: Request, v: View, root: Element) {
    && seen.Observe? && Serve(s, seen).1.Observed? && r.Mutate?
    && r.observation == Serve(s, seen).1.id && r.app == seen.app && r.window == seen.window
    && r.ref in seen.elements && r.now < seen.finished + OBSERVATION_SECONDS
    && r.current.process == seen.process && r.current.graph == v.graph && r.current.root == root
  }

  lemma FollowingIsAttempted(s: Session, seen: Request, r: Request, v: View, root: Element)
    requires Follows(s, seen, r, v, root)
    ensures Serve(Serve(s, seen).0, r).1
            == Attempt(Lease(seen.app, seen.window, seen.process, seen.elements, seen.breadthFirst,
                             seen.finished + OBSERVATION_SECONDS), r.ref, r.current, r.selector)
  {
    hide Attempt;
  }

  /**
   Observing a window and mutating a leased element of it while it is unchanged and the lease is
   live never fails for want of the element, if no node dropped from a tree did harm before the
   element was visited: the outcome rests on the selector and the last checks alone. A selector
   that describes only this element passes, unless the window is beyond the caps of the scan.
   */
  lemma LeaseHolds(s: Session, v: View, root: Element, actionable: set<Element>, seen: Request, r: Request)
    requires Observes(seen, v, root, actionable) && Follows(s, seen, r, v, root)
    requires || seen.breadthFirst || Harmless(v, TREE, Item(root, 0), NOTHING)
             || Seen(WalkedAgain(v, TREE, root), seen.elements[r.ref])
    ensures Serve(Serve(s, seen).0, r).1 == Finish(r.current, r.selector, seen.elements[r.ref])
    ensures || r.selector.None?
            || (!Oversized(v.graph, SCAN, root) && Only(v.graph, root, r.selector.value, seen.elements[r.ref]))
            ==> Serve(Serve(s, seen).0, r).1
                == if r.current.checks then Effected(seen.elements[r.ref]) else Refused(CheckFailed)
  {
    hide Serve, List, Tree, Harmless, WalkedAgain, UniqueIn, Oversized, Reachable, Seen, Search, Stopped;
    FollowingIsAttempted(s, seen, r, v, root);
    if seen.breadthFirst {
      ListedElementIsFound(v, TREE, root, actionable, seen.elements[r.ref]);
    } else {
      LeasedElementIsFound(v, TREE, root, seen.elements[r.ref]);
    }
    if r.selector.Some? && !Oversized(v.graph, SCAN, root)
      && Only(v.graph, root, r.selector.value, seen.elements[r.ref]) {
      UniqueIsConfirmed(v.graph, SCAN, root, seen.elements[r.ref], r.selector.value);
    }
  }

  /**
   Whatever was dropped, the search never answers that a leased element of an unchanged window is
   absent; what the last checks refuse is another matter, whatever their error code.
   */
  lemma LeaseIsNeverAbsent(s: Session, v: View, root: Element, actionable: set<Element>, seen: Request, r: Request)
    requires Observes(seen, v, root, actionable) && Follows(s, seen, r, v, root)
    ensures Serve(Serve(s, seen).0, r).1 != Refused(ElementUnavailable)
  {
    hide Serve, List, Tree;
    FollowingIsAttempted(s, seen, r, v, root);
    if seen.breadthFirst {
      ListedElementIsFound(v, TREE, root, actionable, seen.elements[r.ref]);
    } else {
      LeasedIsNeverAbsent(v, TREE, root, seen.elements[r.ref]);
    }
  }
}
