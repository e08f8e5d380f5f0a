/**
 When a tab lets an action pass and when a dialog can be claimed, on its rows and its dialog, in
 every run.
 */
module BrowserAnswers {
  import opened Outcomes
  import opened Collections
  import opened BrowserTab
  import opened BrowserRuns

  // ----- actions

  /** The frame that an id names: the main frame without one, else an attached child listed under it. */
  ghost predicate Named(w: World, frameId: Option<FrameId>, frame: Frame) {
    match frameId
    case None => frame == MAIN
    case Some(id) => Row(id, frame) in w.entry.observed && frame in w.page.children
  }

  lemma RowIsFound(rows: seq<Row>, nextFrameId: FrameId, nextFrame: Frame, id: FrameId, frame: Frame)
    requires RowsKnown(rows, nextFrameId, nextFrame)
    ensures FrameOf(rows, id) == Some(frame) <==> Row(id, frame) in rows
  {
    FrameOfMeans(rows, id);
    if Row(id, frame) in rows {
      var i :| 0 <= i < |rows| && rows[i] == Row(id, frame);
      RowFound(rows, nextFrameId, nextFrame, i);
    }
  }

  lemma ScopeIsNamed(w: World, frameId: Option<FrameId>, frame: Frame)
    requires WorldInv(w)
    ensures Scope(w.entry, w.page, frameId) == Some(frame) <==> Named(w, frameId, frame)
  {
    if frameId.Some? { RowIsFound(w.entry.observed, w.entry.nextFrameId, w.nextFrame, frameId.value, frame); }
    hide FrameOf;
  }

  lemma ListingKeepsIds(w: World)
    requires WorldInv(w)
    ensures var e, frames := FrameRows(w.entry, w.page), FirstFrames(w.page);
            && |e.observed| == |frames|
            && (forall i :: 0 <= i < |frames| ==> e.observed[i].frame == frames[i])
            && (forall row <- w.entry.observed, row' <- e.observed :: row.frame == row'.frame <==> row == row')
  {
    var e, frames, rows := FrameRows(w.entry, w.page), FirstFrames(w.page), w.entry.observed;
    FirstFramesKnown(w.page, w.nextFrame);
    IdentifiedRows(frames, rows, w.entry.nextFrameId, w.nextFrame);
    hide Identified;
    forall row <- rows, row' <- e.observed ensures row.frame == row'.frame ==> row == row' {
      var j :| 0 <= j < |rows| && rows[j] == row;
      RowFound(rows, w.entry.nextFrameId, w.nextFrame, j);
    }
  }

  /** The main frame and every attached child show an address. */
  ghost predicate Shown(w: World) {
    MAIN in w.page.urls && forall f <- w.page.children :: f in w.page.urls
  }

  lemma {:induction false} RunKeepsShown(w: World, steps: seq<Step>)
    requires Shown(w)
    ensures Shown(RunWorld(w, steps))
    decreases |steps|
  {
    if steps != [] {
      assert Shown(Next(w, steps[0])) by {
        if steps[0].Detach? {
          forall f | f in Remove(w.page.children, steps[0].frame) ensures f in w.page.children {
            WhereIn(g => g != steps[0].frame, w.page.children, f);
          }
        }
        hide Identified, FrameOf, Attached, Scope, Remove;
      }
      hide Next, Shown;
      RunKeepsShown(Next(w, steps[0]), steps[1..]);
    }
  }

  /**
   In every run an observation gets its snapshot exactly if since it began neither the main frame nor
   its own has navigated or been detached, and its own is there; a new snapshot then replaces the last.
   */
  lemma ObservationCompletesExactly(url: string, steps: seq<Step>, flight: nat, shown: string, now: real)
    requires flight in RunWorld(Start(url), steps).flying
    ensures var w := RunWorld(Start(url), steps);
            var f := w.flying[flight];
            var (e, id) := EndObservation(w.entry, w.page, f.o, shown, now);
            && f.since <= |w.changed|
            && (id.Some? <==>
                  && MAIN !in w.changed[f.since..] && f.o.frame !in w.changed[f.since..]
                  && (f.o.frame == MAIN || f.o.frame in w.page.children))
            && (if id.Some? then
                  && id.value !in w.passed && id.value == w.entry.nextSnapshot
                  && e == w.entry.(snapshot := id, takenAt := now, takenUrl := shown, takenFrame := f.o.frameId,
                                   nextSnapshot := id.value + 1)
                else e == w.entry)
  {
    hide Next, Count, FrameOf, Unique;
    var w := RunWorld(Start(url), steps);
    StartInv(url);
    RunKeepsWorld(Start(url), steps);
    assert FlightSound(w.entry, w.nextFrame, w.changed, w.flying[flight]);
    EndSound(w.entry, w.page, w.nextFrame, w.changed, w.flying[flight], shown, now);
    hide RunWorld;
  }

  /** An observation that begins lists the first 32 child frames, in order; a frame listed before keeps its id. */
  lemma FramesAreListed(url: string, steps: seq<Step>, frameId: Option<FrameId>)
    ensures var w := RunWorld(Start(url), steps);
            var (e, o) := BeginObservation(w.entry, w.page, frameId);
            if o.None? then e == w.entry && forall frame: Frame :: !Named(w, frameId, frame)
            else
              && Named(w, frameId, o.value.frame) && o.value.frameId == frameId
              && |e.observed| == (if |w.page.children| <= 32 then |w.page.children| else 32)
              && (forall i :: 0 <= i < |e.observed| ==> e.observed[i].frame == w.page.children[i])
              && (forall row <- w.entry.observed, row' <- e.observed :: row.frame == row'.frame <==> row == row')
  {
    hide WorldInv, Next;
    var w := RunWorld(Start(url), steps);
    StartInv(url);
    RunKeepsWorld(Start(url), steps);
    hide RunWorld;
    forall frame: Frame ensures Scope(w.entry, w.page, frameId) == Some(frame) <==> Named(w, frameId, frame) {
      ScopeIsNamed(w, frameId, frame);
    }
    ListingKeepsIds(w);
    hide FrameRows, Scope;
  }

  /**
   In every run an action passes exactly if its id names a frame and its snapshot, if it has one, is
   the current one: at most a minute old, taken under the same id, and of the address that the frame
   shows now. Passing ends the snapshot; failing changes nothing.
   */
  lemma ActionPassesExactly(url: string, steps: seq<Step>, snapshot: Option<SnapshotId>, frameId: Option<FrameId>,
                            now: real)
    ensures var w := RunWorld(Start(url), steps);
            var (e, ok) := Dispatch(w.entry, w.page, snapshot, frameId, now);
            && (ok <==>
                  exists frame: Frame ::
                    && Named(w, frameId, frame)
                    && (snapshot.Some? ==>
                          && w.entry.snapshot == snapshot && now <= w.entry.takenAt + 60.0
                          && w.entry.takenFrame == frameId
                          && frame in w.page.urls && w.entry.takenUrl == w.page.urls[frame]))
            && e == if ok then w.entry.(snapshot := None) else w.entry
  {
    hide WorldInv;
    var w := RunWorld(Start(url), steps);
    StartInv(url);
    RunKeepsWorld(Start(url), steps);
    RunKeepsShown(Start(url), steps);
    hide RunWorld, Start, Named;
    forall frame: Frame ensures Scope(w.entry, w.page, frameId) == Some(frame) <==> Named(w, frameId, frame) {
      ScopeIsNamed(w, frameId, frame);
    }
    hide Scope;
    if Scope(w.entry, w.page, frameId).Some? {
      assert Named(w, frameId, Scope(w.entry, w.page, frameId).value);
    }
  }

  /** The step ends the current snapshot: its frame or the main one leaves, an action passes, a dialog comes or goes. */
  ghost predicate EndsSnapshot(w: World, st: Step) {
    match st
    case Navigate(frame, _) => frame == MAIN || Named(w, w.entry.takenFrame, frame)
    case Detach(frame) => w.entry.takenFrame.Some? && Named(w, w.entry.takenFrame, frame)
    case Act(snapshot, frameId, now) => Passes(w.entry, w.page, snapshot, frameId, now)
    case Forget(_) => true
    case Show(_) => true
    case Respond(id, withText) =>
      w.entry.dialog == Some(Dialog(id, true, false)) || (w.entry.dialog == Some(Dialog(id, false, false)) && !withText)
    case _ => false
  }

  /** Without a current snapshot, whichever comes next is new. */
  lemma {:induction false} SnapshotsAreNew(w: World, steps: seq<Step>, bound: SnapshotId)
    requires bound <= w.entry.nextSnapshot && (w.entry.snapshot.Some? ==> w.entry.snapshot.value >= bound)
    ensures var e := RunWorld(w, steps).entry; e.snapshot.Some? ==> e.snapshot.value >= bound
    decreases |steps|
  {
    if steps != [] {
      var e := Next(w, steps[0]).entry;
      assert bound <= e.nextSnapshot && (e.snapshot.Some? ==> e.snapshot.value >= bound) by {
        hide Identified, FrameOf, Attached, Scope, Remove;
      }
      hide Next;
      SnapshotsAreNew(Next(w, steps[0]), steps[1..], bound);
    }
  }

  lemma StepEndsSnapshot(w: World, st: Step)
    requires WorldInv(w) && EndsSnapshot(w, st)
    ensures Next(w, st).entry.snapshot == None && Next(w, st).entry.nextSnapshot == w.entry.nextSnapshot
  {
    if st.Navigate? || st.Detach? {
      if w.entry.takenFrame.Some? {
        RowIsFound(w.entry.observed, w.entry.nextFrameId, w.nextFrame, w.entry.takenFrame.value, st.frame);
      }
    }
    hide FrameOf, Scope, Remove, WorldInv;
  }

  /** A snapshot that was ended never lets an action pass again, whatever happens since. */
  lemma EndedSnapshotNeverPasses(url: string, steps: seq<Step>, st: Step, later: seq<Step>, frameId: Option<FrameId>,
                                 now: real)
    requires EndsSnapshot(RunWorld(Start(url), steps), st)
    ensures var w := RunWorld(Start(url), steps);
            var w' := RunWorld(Next(w, st), later);
            w.entry.snapshot.Some? ==> !Passes(w'.entry, w'.page, w.entry.snapshot, frameId, now)
  {
    var w := RunWorld(Start(url), steps);
    StartInv(url);
    RunKeepsWorld(Start(url), steps);
    StepEndsSnapshot(w, st);
    assert w.entry.snapshot.Some? ==> w.entry.snapshot.value < w.entry.nextSnapshot;
    hide RunWorld, Next, WorldInv, EndsSnapshot;
    SnapshotsAreNew(Next(w, st), later, w.entry.nextSnapshot);
  }

  // ----- dialogs

  /** The step neither shows another dialog, nor closes the page, nor claims this one. */
  predicate LeavesDialog(st: Step, d: Dialog) {
    && !st.Show? && !(st.Forget? && st.closed)
    && (st.Respond? ==> st.id != d.id || (st.withText && !d.isPrompt))
  }

  lemma {:induction false} DialogWaits(w: World, steps: seq<Step>, d: Dialog)
    requires w.entry.dialog == Some(d) && !d.claimed
    requires forall st <- steps :: LeavesDialog(st, d)
    ensures RunWorld(w, steps).entry.dialog == Some(d)
    decreases |steps|
  {
    if steps != [] {
      assert steps[0] in steps;
      assert Next(w, steps[0]).entry.dialog == Some(d) by { hide Identified, FrameOf, Attached, Scope, Remove; }
      hide Next;
      DialogWaits(Next(w, steps[0]), steps[1..], d);
    }
  }

  /**
   A dialog that was shown can be claimed once, whatever happens meanwhile, until another one is
   shown, the page closes or it is claimed: with a text only if it is a prompt. The claim ends the
   snapshot; a second one is told so, until the dialog is settled; no other id is ever claimed.
   */
  lemma ShownDialogIsClaimedOnce(w: World, isPrompt: bool, steps: seq<Step>, id: DialogId, withText: bool)
    requires forall st <- steps :: LeavesDialog(st, Dialog(w.entry.nextDialog, isPrompt, false))
    ensures var shown := w.entry.nextDialog;
            var w' := RunWorld(Next(w, Show(isPrompt)), steps);
            var (e, claim) := ClaimDialog(w'.entry, id, withText);
            && claim == (if id != shown then DialogUnavailable
                         else if withText && !isPrompt then NotAPrompt else Claimed)
            && (claim != Claimed ==> e == w'.entry)
            && (claim == Claimed ==>
                  && e == w'.entry.(dialog := Some(Dialog(id, isPrompt, true)), snapshot := None)
                  && (forall again :: ClaimDialog(e, id, again) == (e, AlreadyClaimed))
                  && SettleDialog(e, id) == e.(dialog := None)
                  && forall again :: ClaimDialog(SettleDialog(e, id), id, again).1 == DialogUnavailable)
            && SettleDialog(w'.entry, id) == w'.entry
  {
    DialogWaits(Next(w, Show(isPrompt)), steps, Dialog(w.entry.nextDialog, isPrompt, false));
    hide RunWorld;
  }
}
