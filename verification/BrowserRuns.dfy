/**
 Every interleaving of page events with observations, actions and dialog responses on one tab.

 The tab's lock would keep observations and actions apart; nothing here depends on it.
 */
module BrowserRuns {
  import opened Outcomes
  import opened Collections
  import opened BrowserTab

  /** An observation under way and the number of page changes before it began. */
  datatype Flight = Flight(o: Observation, since: nat)

  /** Where a snapshot id comes from. */
  datatype Origin = Origin(frame: Frame, frameId: Option<FrameId>, since: nat, url: string, at: real)

  /**
   `changed` lists every frame that navigated or was detached, in order; `made` says what each
   snapshot id was taken of; `passed` lists the ids that actions were dispatched on, and `claims`
   the dialogs that were responded to.
   */
  datatype World = World(
    page: Page,
    entry: Entry,
    nextFrame: Frame,
    flying: map<nat, Flight>,
    flights: nat,
    changed: seq<Frame>,
    made: map<SnapshotId, Origin>,
    passed: seq<SnapshotId>,
    claims: seq<DialogId>)

  datatype Step =
    | Attach(url: string)
    | Navigate(frame: Frame, url: string)
    | Detach(frame: Frame)
    | Begin(frameId: Option<FrameId>)
    | End(flight: nat, url: string, now: real)
    | Act(snapshot: Option<SnapshotId>, frameId: Option<FrameId>, now: real)
    | Forget(closed: bool)
    | Show(isPrompt: bool)
    | Respond(id: DialogId, withText: bool)
    | Settle(id: DialogId)

  function Start(url: string): World {
    World(Page([], map[MAIN := url]), Entry(None, 0.0, "", None, 0, map[], [], None, 0, 0, 0), 1, map[], 0, [], map[],
          [], [])
  }

  function Remove(frames: seq<Frame>, frame: Frame): seq<Frame> {
    Where(f => f != frame, frames)
  }

  function Changed(w: World, page: Page, frame: Frame): World {
    w.(page := page, entry := DocumentChanged(w.entry, frame), changed := w.changed + [frame])
  }

  function Beginning(w: World, frameId: Option<FrameId>): World {
    var (e, o) := BeginObservation(w.entry, w.page, frameId);
    if o.None? then w.(entry := e)
    else w.(entry := e, flying := w.flying[w.flights := Flight(o.value, |w.changed|)], flights := w.flights + 1)
  }

  function Ending(w: World, flight: nat, url: string, now: real): World
    requires flight in w.flying
  {
    var f := w.flying[flight];
    var (e, id) := EndObservation(w.entry, w.page, f.o, url, now);
    w.(entry := e, flying := map k | k in w.flying && k != flight :: w.flying[k],
       made := if id.Some? then w.made[id.value := Origin(f.o.frame, f.o.frameId, f.since, url, now)] else w.made)
  }

  function Acting(w: World, snapshot: Option<SnapshotId>, frameId: Option<FrameId>, now: real): World {
    var (e, ok) := Dispatch(w.entry, w.page, snapshot, frameId, now);
    w.(entry := e, passed := if ok && snapshot.Some? then w.passed + [snapshot.value] else w.passed)
  }

  function Responding(w: World, id: DialogId, withText: bool): World {
    var (e, claim) := ClaimDialog(w.entry, id, withText);
    w.(entry := e, claims := if claim == Claimed then w.claims + [id] else w.claims)
  }

  function Next(w: World, st: Step): World {
    match st
    case Attach(url) =>
      w.(page := Page(w.page.children + [w.nextFrame], w.page.urls[w.nextFrame := url]), nextFrame := w.nextFrame + 1)
    case Navigate(frame, url) =>
      if frame == MAIN || frame in w.page.children
      then Changed(w, w.page.(urls := w.page.urls[frame := url]), frame) else w
    case Detach(frame) =>
      if frame in w.page.children then Changed(w, w.page.(children := Remove(w.page.children, frame)), frame) else w
    case Begin(frameId) => Beginning(w, frameId)
    case End(flight, url, now) => if flight in w.flying then Ending(w, flight, url, now) else w
    case Act(snapshot, frameId, now) => Acting(w, snapshot, frameId, now)
    case Forget(closed) =>
      w.(entry := w.entry.(snapshot := None, dialog := if closed then None else w.entry.dialog))
    case Show(isPrompt) => w.(entry := OpenDialog(w.entry, isPrompt))
    case Respond(id, withText) => Responding(w, id, withText)
    case Settle(id) => w.(entry := SettleDialog(w.entry, id))
  }

  function RunWorld(w: World, steps: seq<Step>): World
    decreases |steps|
  {
    if steps == [] then w else RunWorld(Next(w, steps[0]), steps[1..])
  }

  // ----- what every run keeps

  function Count(changed: seq<Frame>, frame: Frame): nat {
    if changed == [] then 0
    else Count(changed[..|changed| - 1], frame) + if changed[|changed| - 1] == frame then 1 else 0
  }

  ghost predicate FramesKnown(page: Page, nextFrame: Frame) {
    nextFrame > MAIN && Unique(page.children) && forall f <- page.children :: MAIN < f < nextFrame
  }

  /** Every row has its own id and its own child frame. */
  ghost predicate RowsKnown(rows: seq<Row>, nextFrameId: FrameId, nextFrame: Frame) {
    && (forall i :: 0 <= i < |rows| ==> rows[i].id < nextFrameId && MAIN < rows[i].frame < nextFrame)
    && (forall i, j :: 0 <= i < j < |rows| ==> rows[i].id != rows[j].id && rows[i].frame != rows[j].frame)
  }

  /** The revisions count the changes: of the main frame always, of a child while it is attached. */
  ghost predicate Counted(e: Entry, page: Page, nextFrame: Frame, changed: seq<Frame>) {
    && e.revision == Count(changed, MAIN)
    && MAIN !in e.revisions && (forall f <- e.revisions :: f < nextFrame)
    && (forall f <- changed :: f < nextFrame)
    && (forall f <- page.children :: RevisionOf(e.revisions, f) == Count(changed, f))
  }

  /** The id still names this frame, if it names any. */
  ghost predicate Names(e: Entry, nextFrame: Frame, frameId: Option<FrameId>, frame: Frame) {
    if frameId.None? then frame == MAIN
    else
      && MAIN < frame < nextFrame && frameId.value < e.nextFrameId
      && (FrameOf(e.observed, frameId.value).Some? ==> FrameOf(e.observed, frameId.value) == Some(frame))
  }

  ghost predicate FlightSound(e: Entry, nextFrame: Frame, changed: seq<Frame>, f: Flight) {
    && f.since <= |changed| && Names(e, nextFrame, f.o.frameId, f.o.frame)
    && f.o.revision == Count(changed[..f.since], MAIN)
    && f.o.frameRevision == if f.o.frame == MAIN then 0 else Count(changed[..f.since], f.o.frame)
  }

  /** Since this many changes, neither the main frame nor this one, as far as its id names it, has changed. */
  ghost predicate Undisturbed(e: Entry, changed: seq<Frame>, m: Origin) {
    && m.since <= |changed| && MAIN !in changed[m.since..]
    && (m.frameId.Some? && FrameOf(e.observed, m.frameId.value).Some? ==> m.frame !in changed[m.since..])
  }

  ghost predicate SnapshotSound(e: Entry, nextFrame: Frame, changed: seq<Frame>, made: map<SnapshotId, Origin>,
                                passed: seq<SnapshotId>)
  {
    && (forall id <- passed :: id < e.nextSnapshot)
    && Unique(passed)
    && (e.snapshot.Some? ==>
          && e.snapshot.value < e.nextSnapshot && e.snapshot.value !in passed && e.snapshot.value in made
          && var m := made[e.snapshot.value];
             && m.frameId == e.takenFrame && m.url == e.takenUrl && m.at == e.takenAt
             && Names(e, nextFrame, m.frameId, m.frame) && Undisturbed(e, changed, m))
  }

  ghost predicate DialogSound(e: Entry, claims: seq<DialogId>) {
    && Unique(claims) && (forall id <- claims :: id < e.nextDialog)
    && (e.dialog.Some? ==>
          && e.dialog.value.id < e.nextDialog
          && (!e.dialog.value.claimed ==> e.dialog.value.id !in claims))
  }

  ghost predicate FlightsSound(w: World) {
    forall k <- w.flying :: FlightSound(w.entry, w.nextFrame, w.changed, w.flying[k])
  }

  ghost predicate WorldInv(w: World) {
    && FramesKnown(w.page, w.nextFrame)
    && RowsKnown(w.entry.observed, w.entry.nextFrameId, w.nextFrame)
    && Counted(w.entry, w.page, w.nextFrame, w.changed)
    && FlightsSound(w)
    && SnapshotSound(w.entry, w.nextFrame, w.changed, w.made, w.passed)
    && DialogSound(w.entry, w.claims)
  }

  // ----- rows

  lemma {:induction false} FrameOfMeans(rows: seq<Row>, id: FrameId)
    ensures FrameOf(rows, id).Some? <==> exists i :: 0 <= i < |rows| && rows[i].id == id
    ensures FrameOf(rows, id).Some? ==> exists i :: 0 <= i < |rows| && rows[i] == Row(id, FrameOf(rows, id).value)
  {
    if rows != [] && rows[0].id != id {
      FrameOfMeans(rows[1..], id);
      if i :| 0 <= i < |rows| && rows[i].id == id { assert rows[1..][i - 1] == rows[i]; }
      if i :| 0 <= i < |rows[1..]| && rows[1..][i].id == id { assert rows[i + 1].id == id; }
      if FrameOf(rows, id).Some? {
        var i :| 0 <= i < |rows[1..]| && rows[1..][i] == Row(id, FrameOf(rows, id).value);
        assert rows[i + 1] == Row(id, FrameOf(rows, id).value);
      }
    }
  }

  lemma {:induction false} IdOfMeans(rows: seq<Row>, frame: Frame)
    ensures IdOf(rows, frame).Some? <==> exists i :: 0 <= i < |rows| && rows[i].frame == frame
    ensures IdOf(rows, frame).Some? ==> exists i :: 0 <= i < |rows| && rows[i] == Row(IdOf(rows, frame).value, frame)
  {
    if rows != [] && rows[0].frame != frame {
      IdOfMeans(rows[1..], frame);
      if i :| 0 <= i < |rows| && rows[i].frame == frame { assert rows[1..][i - 1] == rows[i]; }
      if i :| 0 <= i < |rows[1..]| && rows[1..][i].frame == frame { assert rows[i + 1].frame == frame; }
      if IdOf(rows, frame).Some? {
        var i :| 0 <= i < |rows[1..]| && rows[1..][i] == Row(IdOf(rows, frame).value, frame);
        assert rows[i + 1] == Row(IdOf(rows, frame).value, frame);
      }
    }
  }

  /** In known rows, a row is found by its id and by its frame. */
  lemma RowFound(rows: seq<Row>, nextFrameId: FrameId, nextFrame: Frame, i: nat)
    requires RowsKnown(rows, nextFrameId, nextFrame) && i < |rows|
    ensures FrameOf(rows, rows[i].id) == Some(rows[i].frame) && IdOf(rows, rows[i].frame) == Some(rows[i].id)
  {
    FrameOfMeans(rows, rows[i].id);
    IdOfMeans(rows, rows[i].frame);
  }

  /** A row either keeps the id its frame had or has a fresh one. */
  ghost predicate Inherits(rows: seq<Row>, frames: seq<Frame>, previous: seq<Row>, next: FrameId) {
    && |rows| == |frames|
    && forall i :: 0 <= i < |rows| ==>
         rows[i].frame == frames[i]
         && if rows[i].id < next then IdOf(previous, frames[i]) == Some(rows[i].id) else IdOf(previous, frames[i]).None?
  }

  lemma SameIdSameFrame(rows: seq<Row>, nextFrameId: FrameId, nextFrame: Frame, f: Frame, g: Frame)
    requires RowsKnown(rows, nextFrameId, nextFrame) && IdOf(rows, f).Some? && IdOf(rows, f) == IdOf(rows, g)
    ensures f == g
  {
    IdOfMeans(rows, f);
    IdOfMeans(rows, g);
  }

  lemma IdentifiedRow(rows: seq<Row>, after: FrameId, frames: seq<Frame>, frame: Frame, previous: seq<Row>,
                      next: FrameId, nextFrame: Frame)
    requires RowsKnown(previous, next, nextFrame) && RowsKnown(rows, after, nextFrame)
             && Inherits(rows, frames, previous, next)
    requires MAIN < frame < nextFrame && frame !in frames && next <= after
    ensures var id := IdOf(previous, frame);
            if id.Some? then
              RowsKnown(rows + [Row(id.value, frame)], after, nextFrame)
              && Inherits(rows + [Row(id.value, frame)], frames + [frame], previous, next)
            else
              RowsKnown(rows + [Row(after, frame)], after + 1, nextFrame)
              && Inherits(rows + [Row(after, frame)], frames + [frame], previous, next)
  {
    IdOfMeans(previous, frame);
    var id := IdOf(previous, frame);
    hide IdOf;
    if id.Some? {
      forall i | 0 <= i < |rows| ensures rows[i].id != id.value {
        assert frames[i] in frames;
        if rows[i].id == id.value { SameIdSameFrame(previous, next, nextFrame, frames[i], frame); }
      }
    }
  }

  /** New rows: one per frame, in order, under the id it had or a fresh one. */
  lemma {:induction false} IdentifiedRows(frames: seq<Frame>, previous: seq<Row>, next: FrameId, nextFrame: Frame)
    requires RowsKnown(previous, next, nextFrame) && Unique(frames) && forall f <- frames :: MAIN < f < nextFrame
    ensures var (rows, after) := Identified(frames, previous, next);
            next <= after && RowsKnown(rows, after, nextFrame) && Inherits(rows, frames, previous, next)
  {
    if frames != [] {
      var n := |frames| - 1;
      assert forall f <- frames[..n] :: f in frames;
      IdentifiedRows(frames[..n], previous, next, nextFrame);
      var (rows, after) := Identified(frames[..n], previous, next);
      assert frames[n] in frames;
      assert frames == frames[..n] + [frames[n]];
      IdentifiedRow(rows, after, frames[..n], frames[n], previous, next, nextFrame);
    }
  }

  lemma FirstFramesKnown(page: Page, nextFrame: Frame)
    requires FramesKnown(page, nextFrame)
    ensures Unique(FirstFrames(page)) && forall f <- FirstFrames(page) :: MAIN < f < nextFrame && f in page.children
  {
  }

  /** An id once issued names the same frame after a renewal, or none; and never comes back. */
  lemma NamesRenewed(e: Entry, page: Page, nextFrame: Frame, frameId: Option<FrameId>, frame: Frame)
    requires FramesKnown(page, nextFrame) && RowsKnown(e.observed, e.nextFrameId, nextFrame)
             && Names(e, nextFrame, frameId, frame)
    ensures var e' := FrameRows(e, page);
            && RowsKnown(e'.observed, e'.nextFrameId, nextFrame) && Names(e', nextFrame, frameId, frame)
            && e.nextFrameId <= e'.nextFrameId
            && (frameId.Some? && FrameOf(e'.observed, frameId.value).Some? ==> FrameOf(e.observed, frameId.value).Some?)
  {
    var e' := FrameRows(e, page);
    var frames := FirstFrames(page);
    FirstFramesKnown(page, nextFrame);
    IdentifiedRows(frames, e.observed, e.nextFrameId, nextFrame);
    if frameId.Some? {
      FrameOfMeans(e'.observed, frameId.value);
      if FrameOf(e'.observed, frameId.value).Some? {
        var i :| 0 <= i < |frames| && e'.observed[i] == Row(frameId.value, FrameOf(e'.observed, frameId.value).value);
        IdOfMeans(e.observed, frames[i]);
        var j :| 0 <= j < |e.observed| && e.observed[j] == Row(frameId.value, frames[i]);
        RowFound(e.observed, e.nextFrameId, nextFrame, j);
      }
    }
  }

  lemma RowsRenewed(e: Entry, page: Page, nextFrame: Frame)
    requires FramesKnown(page, nextFrame) && RowsKnown(e.observed, e.nextFrameId, nextFrame)
    ensures RowsKnown(FrameRows(e, page).observed, FrameRows(e, page).nextFrameId, nextFrame)
  {
    NamesRenewed(e, page, nextFrame, None, MAIN);
  }

  // ----- counting changes

  lemma CountAppend(changed: seq<Frame>, frame: Frame, f: Frame)
    ensures Count(changed + [frame], f) == Count(changed, f) + if frame == f then 1 else 0
  {
    assert (changed + [frame])[..|changed|] == changed;
  }

  lemma {:induction false} NeverCounted(changed: seq<Frame>, f: Frame)
    requires f !in changed
    ensures Count(changed, f) == 0
  {
    if changed != [] { NeverCounted(changed[..|changed| - 1], f); }
  }

  lemma {:induction false} CountGrows(changed: seq<Frame>, since: nat, f: Frame)
    requires since <= |changed|
    ensures Count(changed[..since], f) <= Count(changed, f)
    ensures Count(changed[..since], f) == Count(changed, f) <==> f !in changed[since..]
    decreases |changed|
  {
    if since == |changed| {
      assert changed[..since] == changed;
    } else {
      var n := |changed| - 1;
      CountGrows(changed[..n], since, f);
      assert changed[..n][..since] == changed[..since];
      assert changed[since..] == changed[..n][since..] + [changed[n]];
    }
  }

  // ----- one step at a time

  lemma AttachKeeps(w: World, url: string)
    requires WorldInv(w)
    ensures WorldInv(Next(w, Attach(url)))
  {
    hide Count, FrameOf;
    NeverCounted(w.changed, w.nextFrame);
    assert forall k <- w.flying :: FlightSound(w.entry, w.nextFrame, w.changed, w.flying[k]);
  }

  lemma ChangeKeepsCounts(e: Entry, page: Page, nextFrame: Frame, changed: seq<Frame>, frame: Frame)
    requires Counted(e, page, nextFrame, changed) && frame < nextFrame && MAIN !in page.children
    ensures Counted(DocumentChanged(e, frame), page, nextFrame, changed + [frame])
  {
    hide Count, FrameOf;
    forall f ensures Count(changed + [frame], f) == Count(changed, f) + if frame == f then 1 else 0 {
      CountAppend(changed, frame, f);
    }
  }

  lemma ChangeKeepsFlight(e: Entry, nextFrame: Frame, changed: seq<Frame>, frame: Frame, f: Flight)
    requires FlightSound(e, nextFrame, changed, f)
    ensures FlightSound(DocumentChanged(e, frame), nextFrame, changed + [frame], f)
  {
    hide Count, FrameOf;
    assert (changed + [frame])[..f.since] == changed[..f.since];
  }

  lemma ChangeKeepsSnapshot(e: Entry, nextFrame: Frame, changed: seq<Frame>, made: map<SnapshotId, Origin>,
                            passed: seq<SnapshotId>, frame: Frame)
    requires SnapshotSound(e, nextFrame, changed, made, passed)
    ensures SnapshotSound(DocumentChanged(e, frame), nextFrame, changed + [frame], made, passed)
  {
    hide FrameOf, Unique;
    if e.snapshot.Some? {
      var m := made[e.snapshot.value];
      assert (changed + [frame])[m.since..] == changed[m.since..] + [frame];
    }
  }

  lemma ChangeKeeps(w: World, page: Page, frame: Frame)
    requires WorldInv(w) && (frame == MAIN || frame in w.page.children)
    requires FramesKnown(page, w.nextFrame) && forall f <- page.children :: f in w.page.children
    ensures WorldInv(Changed(w, page, frame))
  {
    hide Unique;
    assert Counted(w.entry, page, w.nextFrame, w.changed);
    ChangeKeepsCounts(w.entry, page, w.nextFrame, w.changed, frame);
    forall k <- w.flying
      ensures FlightSound(DocumentChanged(w.entry, frame), w.nextFrame, w.changed + [frame], w.flying[k]) {
      ChangeKeepsFlight(w.entry, w.nextFrame, w.changed, frame, w.flying[k]);
    }
    ChangeKeepsSnapshot(w.entry, w.nextFrame, w.changed, w.made, w.passed, frame);
    hide Counted, FlightSound, SnapshotSound, FramesKnown;
  }

  lemma RemoveKeeps(page: Page, nextFrame: Frame, frame: Frame)
    requires FramesKnown(page, nextFrame)
    ensures FramesKnown(page.(children := Remove(page.children, frame)), nextFrame)
    ensures forall f <- Remove(page.children, frame) :: f in page.children
  {
    WhereUnique(f => f != frame, page.children);
    forall f <- Remove(page.children, frame) ensures f in page.children { WhereIn(g => g != frame, page.children, f); }
  }

  lemma BeginKeepsCounts(e: Entry, page: Page, nextFrame: Frame, changed: seq<Frame>)
    requires Counted(e, page, nextFrame, changed)
    ensures Counted(FrameRows(e, page), page, nextFrame, changed)
  {
    hide Identified, Count;
  }

  lemma BeginKeepsFlight(e: Entry, page: Page, nextFrame: Frame, changed: seq<Frame>, f: Flight)
    requires FramesKnown(page, nextFrame) && RowsKnown(e.observed, e.nextFrameId, nextFrame)
             && FlightSound(e, nextFrame, changed, f)
    ensures FlightSound(FrameRows(e, page), nextFrame, changed, f)
  {
    hide Count, FrameRows, FramesKnown, RowsKnown;
    NamesRenewed(e, page, nextFrame, f.o.frameId, f.o.frame);
  }

  lemma BeginKeepsSnapshot(e: Entry, page: Page, nextFrame: Frame, changed: seq<Frame>, made: map<SnapshotId, Origin>,
                           passed: seq<SnapshotId>)
    requires FramesKnown(page, nextFrame) && RowsKnown(e.observed, e.nextFrameId, nextFrame)
    requires SnapshotSound(e, nextFrame, changed, made, passed)
    ensures SnapshotSound(FrameRows(e, page), nextFrame, changed, made, passed)
  {
    hide FramesKnown, RowsKnown, Unique, Identified;
    if e.snapshot.Some? {
      var m := made[e.snapshot.value];
      NamesRenewed(e, page, nextFrame, m.frameId, m.frame);
      hide Names;
    }
  }

  lemma BeginSound(e: Entry, page: Page, nextFrame: Frame, changed: seq<Frame>, frameId: Option<FrameId>)
    requires FramesKnown(page, nextFrame) && RowsKnown(e.observed, e.nextFrameId, nextFrame)
             && Counted(e, page, nextFrame, changed)
    requires BeginObservation(e, page, frameId).1.Some?
    ensures FlightSound(FrameRows(e, page), nextFrame, changed,
                        Flight(BeginObservation(e, page, frameId).1.value, |changed|))
  {
    hide Count, FrameRows;
    assert changed[..|changed|] == changed;
    var frame := Scope(e, page, frameId).value;
    if frameId.Some? { FrameOfMeans(e.observed, frameId.value); }
    NamesRenewed(e, page, nextFrame, frameId, frame);
  }

  lemma BeginKeeps(w: World, frameId: Option<FrameId>)
    requires WorldInv(w)
    ensures WorldInv(Beginning(w, frameId))
  {
    RowsRenewed(w.entry, w.page, w.nextFrame);
    BeginKeepsCounts(w.entry, w.page, w.nextFrame, w.changed);
    BeginKeepsSnapshot(w.entry, w.page, w.nextFrame, w.changed, w.made, w.passed);
    forall k <- w.flying ensures FlightSound(FrameRows(w.entry, w.page), w.nextFrame, w.changed, w.flying[k]) {
      BeginKeepsFlight(w.entry, w.page, w.nextFrame, w.changed, w.flying[k]);
    }
    var o := BeginObservation(w.entry, w.page, frameId).1;
    if o.Some? { BeginSound(w.entry, w.page, w.nextFrame, w.changed, frameId); }
    assert DialogSound(FrameRows(w.entry, w.page), w.claims);
    hide FlightSound, Counted, SnapshotSound, FramesKnown, RowsKnown, DialogSound, FrameRows, Scope;
  }

  /** A snapshot completes exactly if nothing that it depends on changed since its observation began, or is gone. */
  lemma EndSound(e: Entry, page: Page, nextFrame: Frame, changed: seq<Frame>, f: Flight, url: string, now: real)
    requires Counted(e, page, nextFrame, changed) && FlightSound(e, nextFrame, changed, f)
    ensures EndObservation(e, page, f.o, url, now).1.Some? <==>
              && MAIN !in changed[f.since..] && f.o.frame !in changed[f.since..]
              && (f.o.frame == MAIN || f.o.frame in page.children)
  {
    CountGrows(changed, f.since, MAIN);
    CountGrows(changed, f.since, f.o.frame);
  }

  lemma EndKeeps(w: World, flight: nat, url: string, now: real)
    requires WorldInv(w) && flight in w.flying
    ensures WorldInv(Ending(w, flight, url, now))
  {
    var f := w.flying[flight];
    var w' := Ending(w, flight, url, now);
    if EndObservation(w.entry, w.page, f.o, url, now).1.Some? {
      EndSound(w.entry, w.page, w.nextFrame, w.changed, f, url, now);
    }
    hide Count, FrameOf, FramesKnown, RowsKnown, Unique;
    forall k <- w'.flying ensures FlightSound(w'.entry, w.nextFrame, w.changed, w'.flying[k]) {
      assert FlightSound(w.entry, w.nextFrame, w.changed, w.flying[k]);
    }
    assert FlightSound(w.entry, w.nextFrame, w.changed, f);
  }

  lemma ActKeeps(w: World, snapshot: Option<SnapshotId>, frameId: Option<FrameId>, now: real)
    requires WorldInv(w)
    ensures WorldInv(Acting(w, snapshot, frameId, now))
  {
    hide Count, FrameOf, FramesKnown, RowsKnown, Scope;
    var w' := Acting(w, snapshot, frameId, now);
    forall k <- w'.flying ensures FlightSound(w'.entry, w.nextFrame, w.changed, w'.flying[k]) {
      assert FlightSound(w.entry, w.nextFrame, w.changed, w.flying[k]);
    }
  }

  /** The steps that only clear the snapshot or move the dialog. */
  lemma DialogStepsKeep(w: World, st: Step)
    requires WorldInv(w) && (st.Forget? || st.Show? || st.Respond? || st.Settle?)
    ensures WorldInv(Next(w, st))
  {
    hide Count, FrameOf, FramesKnown, RowsKnown, Scope;
    var w' := Next(w, st);
    forall k <- w'.flying ensures FlightSound(w'.entry, w.nextFrame, w.changed, w'.flying[k]) {
      assert FlightSound(w.entry, w.nextFrame, w.changed, w.flying[k]);
    }
  }

  lemma StepKeepsWorld(w: World, st: Step)
    requires WorldInv(w)
    ensures WorldInv(Next(w, st))
  {
    if st.Attach? {
      AttachKeeps(w, st.url);
    } else if st.Navigate? {
      if st.frame == MAIN || st.frame in w.page.children {
        ChangeKeeps(w, w.page.(urls := w.page.urls[st.frame := st.url]), st.frame);
      }
    } else if st.Detach? {
      if st.frame in w.page.children {
        RemoveKeeps(w.page, w.nextFrame, st.frame);
        ChangeKeeps(w, w.page.(children := Remove(w.page.children, st.frame)), st.frame);
      }
    } else if st.Begin? {
      BeginKeeps(w, st.frameId);
    } else if st.End? {
      if st.flight in w.flying { EndKeeps(w, st.flight, st.url, st.now); }
    } else if st.Act? {
      ActKeeps(w, st.snapshot, st.frameId, st.now);
    } else {
      DialogStepsKeep(w, st);
    }
  }

  lemma StartInv(url: string)
    ensures WorldInv(Start(url))
  {
  }

  lemma {:induction false} RunKeepsWorld(w: World, steps: seq<Step>)
    requires WorldInv(w)
    ensures WorldInv(RunWorld(w, steps))
    decreases |steps|
  {
    if steps != [] {
      hide WorldInv, Next;
      StepKeepsWorld(w, steps[0]);
      RunKeepsWorld(Next(w, steps[0]), steps[1..]);
    }
  }

  // ----- over whole runs

  /** A snapshot id passes the last check of at most one action, and a dialog is responded to at most once. */
  lemma PassedOnceClaimedOnce(url: string, steps: seq<Step>)
    ensures Unique(RunWorld(Start(url), steps).passed) && Unique(RunWorld(Start(url), steps).claims)
  {
    hide Next;
    StartInv(url);
    RunKeepsWorld(Start(url), steps);
  }

  /**
   When an action passes its last check on a snapshot id, the id was never used before and is at
   most a minute old, its frame is the one observed and shows the address it showed, and since that
   observation began the main frame has not navigated nor has the frame itself navigated or been
   detached.
   */
  lemma PassedMeansUndisturbed(url: string, steps: seq<Step>, id: SnapshotId, frameId: Option<FrameId>, now: real)
    requires var w := RunWorld(Start(url), steps); Passes(w.entry, w.page, Some(id), frameId, now)
    ensures var w := RunWorld(Start(url), steps);
            && id !in w.passed && id in w.made
            && var m := w.made[id];
               && Scope(w.entry, w.page, frameId) == Some(m.frame) && m.frameId == frameId
               && UrlOf(w.page, m.frame) == m.url && now <= m.at + SNAPSHOT_SECONDS
               && m.since <= |w.changed| && MAIN !in w.changed[m.since..] && m.frame !in w.changed[m.since..]
  {
    hide Next, Count;
    StartInv(url);
    RunKeepsWorld(Start(url), steps);
  }

  lemma StillListed(e: Entry, page: Page, nextFrame: Frame, id: FrameId, frame: Frame)
    requires FramesKnown(page, nextFrame) && RowsKnown(e.observed, e.nextFrameId, nextFrame)
    requires FrameOf(e.observed, id) == Some(frame)
    ensures FrameOf(FrameRows(e, page).observed, id) == if frame in FirstFrames(page) then Some(frame) else None
  {
    var e' := FrameRows(e, page);
    var frames := FirstFrames(page);
    FirstFramesKnown(page, nextFrame);
    IdentifiedRows(frames, e.observed, e.nextFrameId, nextFrame);
    FrameOfMeans(e.observed, id);
    var j :| 0 <= j < |e.observed| && e.observed[j] == Row(id, frame);
    RowFound(e.observed, e.nextFrameId, nextFrame, j);
    NamesRenewed(e, page, nextFrame, Some(id), frame);
    FrameOfMeans(e'.observed, id);
    if frame in frames {
      var i :| 0 <= i < |frames| && frames[i] == frame;
      assert e'.observed[i].id == id;
    }
  }

  // ----- an undisturbed observation licenses its action

  /** The step does not take away the main frame's document or this frame's. */
  predicate Bystander(st: Step, frame: Frame) {
    && (st.Navigate? ==> st.frame != MAIN && st.frame != frame)
    && (st.Detach? ==> st.frame != frame)
  }

  /** Nor does it end the snapshot: nothing is dispatched, shown, responded to, forgotten or observed anew. */
  predicate Spares(w: World, st: Step, frame: Frame) {
    && Bystander(st, frame) && !st.Forget? && !st.Show?
    && (st.End? ==>
          st.flight in w.flying ==> EndObservation(w.entry, w.page, w.flying[st.flight].o, st.url, st.now).1.None?)
    && (st.Act? ==> !Passes(w.entry, w.page, st.snapshot, st.frameId, st.now))
    && (st.Respond? ==> ClaimDialog(w.entry, st.id, st.withText).1 != Claimed)
  }

  predicate Spared(w: World, steps: seq<Step>, frame: Frame)
    decreases |steps|
  {
    steps == [] || (Spares(w, steps[0], frame) && Spared(Next(w, steps[0]), steps[1..], frame))
  }

  /** The frame is there, at this address, and found under the id it was named by if it was listed then. */
  ghost predicate Holding(w: World, frameId: Option<FrameId>, frame: Frame, listed: bool, url: string) {
    && frame < w.nextFrame && UrlOf(w.page, frame) == url
    && if frameId.None? then frame == MAIN
       else
         && frame != MAIN && frame in w.page.children && frameId.value < w.entry.nextFrameId
         && FrameOf(w.entry.observed, frameId.value) == (if listed then Some(frame) else None)
         && (listed ==> frame in FirstFrames(w.page))
  }

  /** The observation is under way, and nothing that it depends on has changed. */
  predicate Flying(w: World, flight: nat, o: Observation) {
    && flight < w.flights && flight in w.flying && w.flying[flight].o == o
    && o.revision == w.entry.revision && o.frameRevision == RevisionOf(w.entry.revisions, o.frame)
  }

  predicate Taken(e: Entry, id: SnapshotId, frameId: Option<FrameId>, url: string, at: real) {
    e.snapshot == Some(id) && e.takenFrame == frameId && e.takenUrl == url && e.takenAt == at
  }

  /** Removing another frame moves a frame no further back. */
  lemma {:induction false} RemoveIndex(frames: seq<Frame>, gone: Frame, i: nat) returns (j: nat)
    requires i < |frames| && frames[i] != gone
    ensures j <= i && j < |Remove(frames, gone)| && Remove(frames, gone)[j] == frames[i]
  {
    if i == 0 {
      j := 0;
    } else {
      j := RemoveIndex(frames[1..], gone, i - 1);
      if frames[0] != gone { j := j + 1; }
    }
  }

  lemma RemoveKeepsFirst(page: Page, gone: Frame, frame: Frame)
    requires frame != gone && frame in FirstFrames(page)
    ensures frame in FirstFrames(page.(children := Remove(page.children, gone)))
  {
    var i :| 0 <= i < |FirstFrames(page)| && FirstFrames(page)[i] == frame;
    assert page.children[i] == frame;
    var j := RemoveIndex(page.children, gone, i);
    assert FirstFrames(page.(children := Remove(page.children, gone)))[j] == frame;
  }

  lemma AttachKeepsFirst(page: Page, added: Frame, frame: Frame)
    requires frame in FirstFrames(page)
    ensures frame in FirstFrames(page.(children := page.children + [added]))
  {
    var i :| 0 <= i < |FirstFrames(page)| && FirstFrames(page)[i] == frame;
    assert FirstFrames(page.(children := page.children + [added]))[i] == frame;
  }

  lemma RenewalHolds(w: World, frameId: Option<FrameId>, frame: Frame, listed: bool, url: string)
    requires WorldInv(w) && Holding(w, frameId, frame, listed, url)
    ensures Holding(w.(entry := FrameRows(w.entry, w.page)), frameId, frame, listed, url)
  {
    hide Identified;
    if frameId.Some? {
      NamesRenewed(w.entry, w.page, w.nextFrame, frameId, frame);
      if listed { StillListed(w.entry, w.page, w.nextFrame, frameId.value, frame); }
    }
  }

  lemma BystanderHolds(w: World, st: Step, frameId: Option<FrameId>, frame: Frame, listed: bool, url: string)
    requires WorldInv(w) && Holding(w, frameId, frame, listed, url) && Bystander(st, frame)
    ensures Holding(Next(w, st), frameId, frame, listed, url)
  {
    if st.Begin? {
      RenewalHolds(w, frameId, frame, listed, url);
    } else if st.Attach? {
      if listed && frameId.Some? { AttachKeepsFirst(w.page, w.nextFrame, frame); }
    } else if st.Detach? && st.frame in w.page.children {
      RemoveKeeps(w.page, w.nextFrame, st.frame);
      WhereIn(g => g != st.frame, w.page.children, frame);
      if listed && frameId.Some? { RemoveKeepsFirst(w.page, st.frame, frame); }
    }
    hide FrameRows, Remove, FrameOf, WorldInv;
  }

  lemma BystanderFlies(w: World, st: Step, flight: nat, o: Observation)
    requires WorldInv(w) && Flying(w, flight, o) && (o.frame == MAIN || o.frame in w.page.children)
    requires Bystander(st, o.frame) && !(st.End? && st.flight == flight)
    ensures Flying(Next(w, st), flight, o)
  {
    hide Identified, Remove, FrameOf, Count;
  }

  lemma SparedStays(w: World, st: Step, frame: Frame, id: SnapshotId, frameId: Option<FrameId>, listed: bool,
                    url: string, at: real)
    requires FramesKnown(w.page, w.nextFrame) && Holding(w, frameId, frame, listed, url)
    requires Taken(w.entry, id, frameId, url, at) && Spares(w, st, frame)
    ensures Taken(Next(w, st).entry, id, frameId, url, at)
  {
    hide Identified, Remove;
  }

  lemma {:induction false} BystandersFly(w: World, steps: seq<Step>, flight: nat, o: Observation, listed: bool,
                                         url: string)
    requires WorldInv(w) && Flying(w, flight, o) && Holding(w, o.frameId, o.frame, listed, url)
    requires forall st <- steps :: Bystander(st, o.frame) && !(st.End? && st.flight == flight)
    ensures var w' := RunWorld(w, steps); Flying(w', flight, o) && Holding(w', o.frameId, o.frame, listed, url)
    decreases |steps|
  {
    if steps != [] {
      assert o.frame == MAIN || o.frame in w.page.children;
      hide WorldInv, Next, Flying, Holding, Bystander;
      assert steps[0] in steps;
      StepKeepsWorld(w, steps[0]);
      BystanderHolds(w, steps[0], o.frameId, o.frame, listed, url);
      BystanderFlies(w, steps[0], flight, o);
      BystandersFly(Next(w, steps[0]), steps[1..], flight, o, listed, url);
    }
  }

  lemma {:induction false} SparedRunStays(w: World, steps: seq<Step>, frame: Frame, id: SnapshotId,
                                          frameId: Option<FrameId>, listed: bool, url: string, at: real)
    requires WorldInv(w) && Holding(w, frameId, frame, listed, url) && Taken(w.entry, id, frameId, url, at)
    requires Spared(w, steps, frame)
    ensures var w' := RunWorld(w, steps);
            Holding(w', frameId, frame, listed, url) && Taken(w'.entry, id, frameId, url, at)
    decreases |steps|
  {
    if steps != [] {
      assert Bystander(steps[0], frame) && FramesKnown(w.page, w.nextFrame);
      hide WorldInv, FramesKnown, Next, Taken, Holding, Spares, Bystander;
      StepKeepsWorld(w, steps[0]);
      BystanderHolds(w, steps[0], frameId, frame, listed, url);
      SparedStays(w, steps[0], frame, id, frameId, listed, url, at);
      SparedRunStays(Next(w, steps[0]), steps[1..], frame, id, frameId, listed, url, at);
    }
  }

  /** What an observation leaves when it begins. */
  lemma BeginTakesOff(w: World, frameId: Option<FrameId>)
    requires WorldInv(w) && Scope(w.entry, w.page, frameId).Some?
    ensures var frame, w1 := Scope(w.entry, w.page, frameId).value, Next(w, Begin(frameId));
            && WorldInv(w1) && w.flights in w1.flying
            && w1.flying[w.flights].o.frame == frame && w1.flying[w.flights].o.frameId == frameId
            && Flying(w1, w.flights, w1.flying[w.flights].o)
            && Holding(w1, frameId, frame, frameId.None? || frame in FirstFrames(w.page), UrlOf(w.page, frame))
  {
    var frame := Scope(w.entry, w.page, frameId).value;
    StepKeepsWorld(w, Begin(frameId));
    hide Identified, Count;
    var e1 := FrameRows(w.entry, w.page);
    assert RevisionOf(e1.revisions, frame) == RevisionOf(w.entry.revisions, frame);
    if frameId.Some? {
      NamesRenewed(w.entry, w.page, w.nextFrame, frameId, frame) by { FrameOfMeans(w.entry.observed, frameId.value); }
      StillListed(w.entry, w.page, w.nextFrame, frameId.value, frame);
    }
  }

  lemma EndLands(w: World, flight: nat, o: Observation, listed: bool, url: string, now: real)
    requires WorldInv(w) && Flying(w, flight, o) && Holding(w, o.frameId, o.frame, listed, url)
    ensures var w' := Next(w, End(flight, url, now));
            && WorldInv(w') && Holding(w', o.frameId, o.frame, listed, url)
            && Taken(w'.entry, w.entry.nextSnapshot, o.frameId, url, now)
  {
    StepKeepsWorld(w, End(flight, url, now));
    hide WorldInv;
  }

  lemma HoldingPasses(w: World, id: SnapshotId, frameId: Option<FrameId>, frame: Frame, listed: bool, url: string,
                      at: real, now: real)
    requires Holding(w, frameId, frame, listed, url) && Taken(w.entry, id, frameId, url, at)
    ensures Passes(w.entry, w.page, Some(id), frameId, now)
            <==> (frameId.None? || listed) && now - at <= SNAPSHOT_SECONDS
  {
  }

  /**
   An undisturbed observation does license its action. While it is under way anything may happen but
   the main frame or its own navigating or being detached; once it is complete, anything that does
   not end its snapshot either. Then, in the frame it names, the action passes exactly within the
   minute and if the frame was among the listed ones when the observation began.
   */
  lemma UndisturbedObservationPasses(w: World, frameId: Option<FrameId>, before: seq<Step>, now: real, after: seq<Step>,
                                     later: real)
    requires WorldInv(w) && Scope(w.entry, w.page, frameId).Some?
    requires var frame := Scope(w.entry, w.page, frameId).value;
             var w2 := RunWorld(Next(w, Begin(frameId)), before);
             && (forall st <- before :: Bystander(st, frame) && !(st.End? && st.flight == w.flights))
             && Spared(Next(w2, End(w.flights, UrlOf(w.page, frame), now)), after, frame)
    ensures var frame := Scope(w.entry, w.page, frameId).value;
            var w2 := RunWorld(Next(w, Begin(frameId)), before);
            var w3 := Next(w2, End(w.flights, UrlOf(w.page, frame), now));
            var w4 := RunWorld(w3, after);
            && w3.entry.snapshot == Some(w2.entry.nextSnapshot)
            && (Passes(w4.entry, w4.page, w3.entry.snapshot, frameId, later)
                <==> (frameId.None? || frame in FirstFrames(w.page)) && later - now <= SNAPSHOT_SECONDS)
  {
    hide WorldInv, Next, Holding, Flying, RunWorld, Passes, Scope, Spared, Bystander;
    var frame, flight := Scope(w.entry, w.page, frameId).value, w.flights;
    var url := UrlOf(w.page, frame);
    var listed := frameId.None? || frame in FirstFrames(w.page);
    BeginTakesOff(w, frameId);
    var w1 := Next(w, Begin(frameId));
    var o := w1.flying[flight].o;
    BystandersFly(w1, before, flight, o, listed, url);
    RunKeepsWorld(w1, before);
    var w2 := RunWorld(w1, before);
    EndLands(w2, flight, o, listed, url, now);
    var w3 := Next(w2, End(flight, url, now));
    SparedRunStays(w3, after, frame, w2.entry.nextSnapshot, frameId, listed, url, now);
    HoldingPasses(RunWorld(w3, after), w2.entry.nextSnapshot, frameId, frame, listed, url, now, later);
  }
}
