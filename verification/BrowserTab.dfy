/**
 One tab of src/anywhere_computer/browser_control.py: snapshot ids that license an action, the
 frames an observation names, and the pending dialog.

 Every operation is what runs between two awaits. What the browser shows at that moment is its
 `Page`; frames, frame ids, snapshot ids and dialog ids are fresh values.
 */
module BrowserTab {
  import opened Outcomes

  type Frame = nat
  type FrameId = nat
  type SnapshotId = nat
  type DialogId = nat

  const MAIN: Frame := 0
  const FRAME_LIMIT := 32
  const SNAPSHOT_SECONDS := 60.0

  /** The child frames attached now, in order, and the address of every frame. */
  datatype Page = Page(children: seq<Frame>, urls: map<Frame, string>)

  /** A child frame and the id it was observed under. */
  datatype Row = Row(id: FrameId, frame: Frame)

  datatype Dialog = Dialog(id: DialogId, isPrompt: bool, claimed: bool)

  datatype Entry = Entry(
    snapshot: Option<SnapshotId>,
    takenAt: real,
    takenUrl: string,
    takenFrame: Option<FrameId>,
    revision: nat,
    revisions: map<Frame, nat>,
    observed: seq<Row>,
    dialog: Option<Dialog>,
    nextFrameId: FrameId,
    nextSnapshot: SnapshotId,
    nextDialog: DialogId)

  /** An observation under way: its frame, and the revisions it began with. */
  datatype Observation = Observation(frame: Frame, frameId: Option<FrameId>, revision: nat, frameRevision: nat)

  datatype Claim = Claimed | DialogUnavailable | AlreadyClaimed | NotAPrompt

  function UrlOf(page: Page, frame: Frame): string {
    if frame in page.urls then page.urls[frame] else ""
  }

  function RevisionOf(revisions: map<Frame, nat>, frame: Frame): nat {
    if frame in revisions then revisions[frame] else 0
  }

  function FrameOf(rows: seq<Row>, id: FrameId): Option<Frame> {
    if rows == [] then None
    else if rows[0].id == id then Some(rows[0].frame)
    else FrameOf(rows[1..], id)
  }

  function IdOf(rows: seq<Row>, frame: Frame): Option<FrameId> {
    if rows == [] then None
    else if rows[0].frame == frame then Some(rows[0].id)
    else IdOf(rows[1..], frame)
  }

  // ----- what happens between awaits

  /** The child frame that the current snapshot was taken of, as it is observed now. */
  function TakenOf(e: Entry): Option<Frame> {
    if e.takenFrame.Some? then FrameOf(e.observed, e.takenFrame.value) else None
  }

  /** The frame navigated or was detached. */
  function DocumentChanged(e: Entry, frame: Frame): Entry {
    if frame == MAIN then e.(revision := e.revision + 1, snapshot := None)
    else
      e.(revisions := e.revisions[frame := RevisionOf(e.revisions, frame) + 1],
         snapshot := if TakenOf(e) == Some(frame) then None else e.snapshot)
  }

  function Scope(e: Entry, page: Page, frameId: Option<FrameId>): Option<Frame> {
    if frameId.None? then Some(MAIN)
    else
      var frame := FrameOf(e.observed, frameId.value);
      if frame.Some? && frame.value in page.children then frame else None
  }

  /** Rows for these frames: under the id a frame already had, or the next one. */
  function Identified(frames: seq<Frame>, previous: seq<Row>, next: FrameId): (seq<Row>, FrameId) {
    if frames == [] then ([], next)
    else
      var n := |frames| - 1;
      var (rows, after) := Identified(frames[..n], previous, next);
      match IdOf(previous, frames[n])
      case Some(id) => (rows + [Row(id, frames[n])], after)
      case None => (rows + [Row(after, frames[n])], after + 1)
  }

  function FirstFrames(page: Page): seq<Frame> {
    if |page.children| <= FRAME_LIMIT then page.children else page.children[..FRAME_LIMIT]
  }

  function Attached(revisions: map<Frame, nat>, page: Page): map<Frame, nat> {
    map f | f in revisions && f in page.children :: revisions[f]
  }

  function FrameRows(e: Entry, page: Page): Entry {
    var (rows, next) := Identified(FirstFrames(page), e.observed, e.nextFrameId);
    e.(observed := rows, nextFrameId := next, revisions := Attached(e.revisions, page))
  }

  function BeginObservation(e: Entry, page: Page, frameId: Option<FrameId>): (Entry, Option<Observation>) {
    match Scope(e, page, frameId)
    case None => (e, None)
    case Some(frame) =>
      (FrameRows(e, page), Some(Observation(frame, frameId, e.revision, RevisionOf(e.revisions, frame))))
  }

  function EndObservation(e: Entry, page: Page, o: Observation, url: string, now: real): (Entry, Option<SnapshotId>) {
    if o.revision != e.revision || (o.frame != MAIN && o.frame !in page.children)
       || o.frameRevision != RevisionOf(e.revisions, o.frame) then (e, None)
    else
      (e.(snapshot := Some(e.nextSnapshot), takenAt := now, takenUrl := url, takenFrame := o.frameId,
          nextSnapshot := e.nextSnapshot + 1),
       Some(e.nextSnapshot))
  }

  /** The check before an action: its frame is there and its snapshot, if it names one, is current. */
  predicate Passes(e: Entry, page: Page, snapshot: Option<SnapshotId>, frameId: Option<FrameId>, now: real) {
    && Scope(e, page, frameId).Some?
    && (snapshot.Some? ==>
          && snapshot == e.snapshot && now - e.takenAt <= SNAPSHOT_SECONDS
          && UrlOf(page, Scope(e, page, frameId).value) == e.takenUrl && frameId == e.takenFrame)
  }

  /** The last check of an action and, where it passes, the end of the snapshot; the action follows. */
  function Dispatch(e: Entry, page: Page, snapshot: Option<SnapshotId>, frameId: Option<FrameId>, now: real)
    : (Entry, bool)
  {
    if Passes(e, page, snapshot, frameId, now) then (e.(snapshot := None), true) else (e, false)
  }

  function OpenDialog(e: Entry, isPrompt: bool): Entry {
    e.(dialog := Some(Dialog(e.nextDialog, isPrompt, false)), nextDialog := e.nextDialog + 1, snapshot := None)
  }

  function ClaimDialog(e: Entry, id: DialogId, withText: bool): (Entry, Claim) {
    if e.dialog.None? || e.dialog.value.id != id then (e, DialogUnavailable)
    else if e.dialog.value.claimed then (e, AlreadyClaimed)
    else if withText && !e.dialog.value.isPrompt then (e, NotAPrompt)
    else (e.(dialog := Some(e.dialog.value.(claimed := true)), snapshot := None), Claimed)
  }

  /** A claimed dialog is confirmed gone, unless another has taken its place. */
  function SettleDialog(e: Entry, id: DialogId): Entry {
    if e.dialog.Some? && e.dialog.value.id == id && e.dialog.value.claimed then e.(dialog := None) else e
  }

  // ----- the tab as an object

  class TabEntry {
    var snapshot: Option<SnapshotId>
    var takenAt: real
    var takenUrl: string
    var takenFrame: Option<FrameId>
    var revision: nat
    var revisions: map<Frame, nat>
    var observed: seq<Row>
    var dialog: Option<Dialog>
    var nextFrameId: FrameId
    var nextSnapshot: SnapshotId
    var nextDialog: DialogId

    function State(): Entry
      reads this
    {
      Entry(snapshot, takenAt, takenUrl, takenFrame, revision, revisions, observed, dialog, nextFrameId, nextSnapshot,
            nextDialog)
    }

    constructor ()
      ensures State() == Entry(None, 0.0, "", None, 0, map[], [], None, 0, 0, 0)
    {
      snapshot, takenAt, takenUrl, takenFrame := None, 0.0, "", None;
      revision, revisions, observed, dialog := 0, map[], [], None;
      nextFrameId, nextSnapshot, nextDialog := 0, 0, 0;
    }

    method OnDocumentChanged(frame: Frame)
      modifies this`revision, this`revisions, this`snapshot
      ensures State() == DocumentChanged(old(State()), frame)
    {
      if frame == MAIN {
        revision := revision + 1;
        snapshot := None;
      } else {
        revisions := revisions[frame := RevisionOf(revisions, frame) + 1];
        if takenFrame.Some? && FrameOf(observed, takenFrame.value) == Some(frame) { snapshot := None; }
      }
    }

    method RenewFrames(page: Page) returns (truncated: bool)
      modifies this`observed, this`nextFrameId, this`revisions
      ensures State() == FrameRows(old(State()), page)
      ensures truncated <==> |page.children| > FRAME_LIMIT
    {
      var frames := FirstFrames(page);
      var rows: seq<Row> := [];
      var next := nextFrameId;
      for k := 0 to |frames|
        invariant (rows, next) == Identified(frames[..k], observed, nextFrameId)
      {
        assert frames[..k + 1][..k] == frames[..k];
        var id := IdOf(observed, frames[k]);
        if id.Some? {
          rows := rows + [Row(id.value, frames[k])];
        } else {
          rows := rows + [Row(next, frames[k])];
          next := next + 1;
        }
      }
      assert frames[..|frames|] == frames;
      observed, nextFrameId, revisions := rows, next, Attached(revisions, page);
      truncated := |page.children| > FRAME_LIMIT;
    }

    method Begin(page: Page, frameId: Option<FrameId>) returns (o: Option<Observation>)
      modifies this`observed, this`nextFrameId, this`revisions
      ensures (State(), o) == BeginObservation(old(State()), page, frameId)
    {
      var scope := Scope(State(), page, frameId);
      if scope.None? { return None; }
      o := Some(Observation(scope.value, frameId, revision, RevisionOf(revisions, scope.value)));
      var truncated := RenewFrames(page);
    }

    method End(page: Page, o: Observation, url: string, now: real) returns (id: Option<SnapshotId>)
      modifies this
      ensures (State(), id) == EndObservation(old(State()), page, o, url, now)
    {
      if o.revision != revision { return None; }
      if o.frame != MAIN && o.frame !in page.children { return None; }
      if o.frameRevision != RevisionOf(revisions, o.frame) { return None; }
      snapshot, takenAt, takenUrl, takenFrame := Some(nextSnapshot), now, url, o.frameId;
      nextSnapshot := nextSnapshot + 1;
      id := snapshot;
    }

    method CheckAndDispatch(page: Page, claimed: Option<SnapshotId>, frameId: Option<FrameId>, now: real)
      returns (ok: bool)
      modifies this`snapshot
      ensures (State(), ok) == Dispatch(old(State()), page, claimed, frameId, now)
    {
      var scope := Scope(State(), page, frameId);
      if scope.None? { return false; }
      if claimed.Some? {
        if claimed != snapshot || now - takenAt > SNAPSHOT_SECONDS { return false; }
        if UrlOf(page, scope.value) != takenUrl || frameId != takenFrame { return false; }
      }
      snapshot := None;
      ok := true;
    }

    method OnDialog(isPrompt: bool)
      modifies this`dialog, this`nextDialog, this`snapshot
      ensures State() == OpenDialog(old(State()), isPrompt)
    {
      dialog := Some(Dialog(nextDialog, isPrompt, false));
      nextDialog := nextDialog + 1;
      snapshot := None;
    }

    method HandleDialog(id: DialogId, withText: bool) returns (claim: Claim)
      modifies this`dialog, this`snapshot
      ensures (State(), claim) == ClaimDialog(old(State()), id, withText)
    {
      if dialog.None? || dialog.value.id != id { return DialogUnavailable; }
      if dialog.value.claimed { return AlreadyClaimed; }
      if withText && !dialog.value.isPrompt { return NotAPrompt; }
      dialog := Some(dialog.value.(claimed := true));
      snapshot := None;
      claim := Claimed;
    }

    method DialogGone(id: DialogId)
      modifies this`dialog
      ensures State() == SettleDialog(old(State()), id)
    {
      if dialog.Some? && dialog.value.id == id && dialog.value.claimed { dialog := None; }
    }
  }
}
