/**
 The bounded event histories of src/anywhere_computer/browser_control.py: a ring that keeps the
 last hundred events, read by polling with the last id seen.
 */
module EventRing {

  const RING_LIMIT := 100

  datatype Event = Event(id: nat, data: string)

  /** The events kept, oldest first, and the id of the latest event ever recorded. */
  datatype Ring = Ring(events: seq<Event>, latest: nat)

  datatype Poll = Poll(events: seq<Event>, next: nat, truncated: bool)

  function Record(r: Ring, data: string): Ring {
    var all := r.events + [Event(r.latest + 1, data)];
    Ring(if |all| > RING_LIMIT then all[1..] else all, r.latest + 1)
  }

  function After(events: seq<Event>, after: nat): seq<Event> {
    if events == [] then []
    else (if events[0].id > after then [events[0]] else []) + After(events[1..], after)
  }

  /** The next `limit` events after an id, the id to go on from, and whether earlier ones are gone. */
  function Read(r: Ring, after: nat, limit: nat): Poll
    requires limit >= 1
  {
    var rows := After(r.events, after);
    var taken := if |rows| <= limit then rows else rows[..limit];
    Poll(taken, if taken == [] then after else taken[|taken| - 1].id, r.events != [] && after < r.events[0].id - 1)
  }

  lemma NothingAfter(after: nat)
    ensures After([], after) == []
  {
  }

  lemma {:induction false} AfterAppend(events: seq<Event>, e: Event, after: nat)
    ensures After(events + [e], after) == After(events, after) + if e.id > after then [e] else []
  {
    if events == [] {
      assert [] + [e] == [e];
    } else {
      var first, all := if events[0].id > after then [events[0]] else [], events + [e];
      assert all[0] == events[0] && all[1..] == events[1..] + [e];
      assert After(events, after) == first + After(events[1..], after);
      assert After(all, after) == first + After(events[1..] + [e], after);
      hide After;
      AfterAppend(events[1..], e, after);
    }
  }

  class History {
    var events: seq<Event>
    var latest: nat

    function State(): Ring
      reads this
    {
      Ring(events, latest)
    }

    constructor ()
      ensures State() == Ring([], 0)
    {
      events, latest := [], 0;
    }

    method Append(data: string)
      modifies this
      ensures State() == Record(old(State()), data)
    {
      latest := latest + 1;
      events := events + [Event(latest, data)];
      if |events| > RING_LIMIT { events := events[1..]; }
    }

    method Get(after: nat, limit: nat) returns (poll: Poll)
      requires limit >= 1
      ensures poll == Read(State(), after, limit)
    {
      var rows: seq<Event> := [];
      hide After;
      NothingAfter(after);
      assert events[..0] == [];
      for k := 0 to |events|
        invariant rows == After(events[..k], after)
      {
        AfterAppend(events[..k], events[k], after);
        assert events[..k + 1] == events[..k] + [events[k]];
        if events[k].id > after { rows := rows + [events[k]]; }
      }
      assert events[..|events|] == events;
      var n := if |rows| <= limit then |rows| else limit;
      var next := if rows == [] then after else rows[n - 1].id;
      var taken := rows[..n];
      assert |rows| <= limit ==> taken == rows;
      poll := Poll(taken, next, events != [] && after < events[0].id - 1);
    }
  }

  // ----- a client that follows `next`

  /** `recorded` is everything recorded, `seen` everything delivered, `lost` whether a poll reported a gap. */
  datatype World = World(ring: Ring, recorded: seq<string>, cursor: nat, seen: seq<Event>, lost: bool)

  datatype Step = Happen(data: string) | Ask(limit: nat)

  function Next(w: World, st: Step): World {
    match st
    case Happen(data) => w.(ring := Record(w.ring, data), recorded := w.recorded + [data])
    case Ask(limit) =>
      if limit == 0 then w
      else
        var poll := Read(w.ring, w.cursor, limit);
        w.(cursor := poll.next, seen := w.seen + poll.events, lost := w.lost || poll.truncated)
  }

  function RunWorld(w: World, steps: seq<Step>): World
    decreases |steps|
  {
    if steps == [] then w else RunWorld(Next(w, steps[0]), steps[1..])
  }

  ghost predicate Recorded(e: Event, recorded: seq<string>) {
    1 <= e.id <= |recorded| && e.data == recorded[e.id - 1]
  }

  /** The ring is the end of what was recorded, numbered from one. */
  ghost predicate RingSound(r: Ring, recorded: seq<string>) {
    && r.latest == |recorded| && |r.events| == (if |recorded| <= RING_LIMIT then |recorded| else RING_LIMIT)
    && forall k :: 0 <= k < |r.events| ==>
         Recorded(r.events[k], recorded) && r.events[k].id == |recorded| - |r.events| + 1 + k
  }

  ghost predicate Increasing(seen: seq<Event>) {
    forall i, j :: 0 <= i < j < |seen| ==> seen[i].id < seen[j].id
  }

  /**
   What was delivered rises, is as recorded, and ends at the cursor; without a reported gap it is
   everything since the start, and with one it is fewer events than that.
   */
  ghost predicate SeenSound(seen: seq<Event>, recorded: seq<string>, start: nat, cursor: nat, lost: bool) {
    && start <= cursor
    && Increasing(seen)
    && (forall k :: 0 <= k < |seen| ==> Recorded(seen[k], recorded) && start < seen[k].id <= cursor)
    && (!lost ==> cursor == start + |seen| && forall k :: 0 <= k < |seen| ==> seen[k].id == start + 1 + k)
    && (lost ==> cursor > start + |seen|)
  }

  ghost predicate WorldInv(w: World, start: nat) {
    RingSound(w.ring, w.recorded) && SeenSound(w.seen, w.recorded, start, w.cursor, w.lost)
  }

  lemma RecordKeeps(r: Ring, recorded: seq<string>, data: string)
    requires RingSound(r, recorded)
    ensures RingSound(Record(r, data), recorded + [data])
  {
    var all := r.events + [Event(r.latest + 1, data)];
    var r' := Record(r, data);
    forall k | 0 <= k < |r'.events|
      ensures Recorded(r'.events[k], recorded + [data]) && r'.events[k].id == |recorded| + 1 - |r'.events| + 1 + k
    {
      var from := |all| - |r'.events|;
      assert r'.events[k] == all[from + k];
      if from + k < |r.events| { assert Recorded(r.events[from + k], recorded); }
    }
  }

  /** The events after an id are the end of a numbered ring. */
  lemma {:induction false} AfterIsSuffix(events: seq<Event>, first: nat, after: nat)
    requires forall k :: 0 <= k < |events| ==> events[k].id == first + k
    ensures var skip :=
              if after < first then 0 else if after - first + 1 <= |events| then after - first + 1 else |events|;
            After(events, after) == events[skip..]
  {
    if events != [] {
      assert forall k :: 0 <= k < |events[1..]| ==> events[1..][k] == events[k + 1];
      AfterIsSuffix(events[1..], first + 1, after);
      if after >= first { assert events[0].id <= after; }
    }
  }

  /** Rows that follow one another without a gap, as recorded, all after an id. */
  ghost predicate Following(rows: seq<Event>, recorded: seq<string>, after: nat) {
    forall k :: 0 <= k < |rows| ==> Recorded(rows[k], recorded) && rows[k].id > after && rows[k].id == rows[0].id + k
  }

  lemma SuffixFollows(r: Ring, recorded: seq<string>, skip: nat, after: nat)
    requires RingSound(r, recorded) && skip <= |r.events| && (skip < |r.events| ==> r.events[skip].id > after)
    ensures Following(r.events[skip..], recorded, after)
  {
    var rows := r.events[skip..];
    forall k | 0 <= k < |rows|
      ensures Recorded(rows[k], recorded) && rows[k].id > after && rows[k].id == rows[0].id + k {
      assert rows[k] == r.events[skip + k] && rows[0] == r.events[skip];
    }
  }

  lemma AfterFollows(r: Ring, recorded: seq<string>, after: nat)
    requires RingSound(r, recorded)
    ensures Following(After(r.events, after), recorded, after)
    ensures After(r.events, after) != [] && after >= r.events[0].id - 1 ==> After(r.events, after)[0].id == after + 1
    ensures r.events != [] && after < r.events[0].id - 1 ==> After(r.events, after) == r.events
  {
    if r.events != [] {
      var n, first := |r.events|, r.events[0].id;
      AfterIsSuffix(r.events, first, after);
      hide After, Following;
      var skip := if after < first then 0 else if after - first + 1 <= n then after - first + 1 else n;
      assert skip < n ==> r.events[skip].id == first + skip;
      SuffixFollows(r, recorded, skip, after);
    }
  }

  lemma FirstRowsFollow(rows: seq<Event>, recorded: seq<string>, after: nat, n: nat)
    requires Following(rows, recorded, after) && n <= |rows|
    ensures Following(rows[..n], recorded, after)
  {
    hide Recorded;
  }

  /** A poll's rows follow one another without a gap, starting right after the cursor exactly if it reports no loss. */
  lemma ReadMeans(r: Ring, recorded: seq<string>, after: nat, limit: nat)
    requires RingSound(r, recorded) && limit >= 1
    ensures var p := Read(r, after, limit);
            && |p.events| <= limit
            && Following(p.events, recorded, after)
            && p.next == (if p.events == [] then after else p.events[0].id + |p.events| - 1)
            && (p.events != [] && !p.truncated ==> p.events[0].id == after + 1)
            && (p.truncated ==> p.events != [] && p.events[0].id > after + 1)
  {
    AfterFollows(r, recorded, after);
    assert r.events == [] ==> After(r.events, after) == [];
    hide RingSound, After, Recorded;
    var rows := After(r.events, after);
    FirstRowsFollow(rows, recorded, after, if |rows| <= limit then |rows| else limit);
    assert rows[..|rows|] == rows;
  }

  lemma SeenLater(seen: seq<Event>, recorded: seq<string>, data: string, start: nat, cursor: nat, lost: bool)
    requires SeenSound(seen, recorded, start, cursor, lost)
    ensures SeenSound(seen, recorded + [data], start, cursor, lost)
  {
  }

  lemma SeenMore(seen: seq<Event>, rows: seq<Event>, recorded: seq<string>, start: nat, cursor: nat, lost: bool,
                 truncated: bool)
    requires SeenSound(seen, recorded, start, cursor, lost) && Following(rows, recorded, cursor)
    requires rows != [] && !truncated ==> rows[0].id == cursor + 1
    requires truncated ==> rows != [] && rows[0].id > cursor + 1
    ensures SeenSound(seen + rows, recorded, start, if rows == [] then cursor else rows[0].id + |rows| - 1,
                      lost || truncated)
  {
    hide Recorded;
    var all, n := seen + rows, |seen|;
    assert forall k :: n <= k < |all| ==> all[k] == rows[k - n];
  }

  lemma StepKeeps(w: World, start: nat, st: Step)
    requires WorldInv(w, start)
    ensures WorldInv(Next(w, st), start)
  {
    hide RingSound, SeenSound, Read, Record;
    if st.Happen? {
      RecordKeeps(w.ring, w.recorded, st.data);
      SeenLater(w.seen, w.recorded, st.data, start, w.cursor, w.lost);
    } else if st.limit >= 1 {
      var p := Read(w.ring, w.cursor, st.limit);
      ReadMeans(w.ring, w.recorded, w.cursor, st.limit);
      SeenMore(w.seen, p.events, w.recorded, start, w.cursor, w.lost, p.truncated);
    }
  }

  lemma {:induction false} RunKeeps(w: World, start: nat, steps: seq<Step>)
    requires WorldInv(w, start)
    ensures WorldInv(RunWorld(w, steps), start)
    decreases |steps|
  {
    if steps != [] {
      hide WorldInv, Next;
      StepKeeps(w, start, steps[0]);
      RunKeeps(Next(w, steps[0]), start, steps[1..]);
    }
  }

  predicate Delivered(seen: seq<Event>, id: nat) {
    exists k :: 0 <= k < |seen| && seen[k].id == id
  }

  /** Where every id up to the cursor was delivered, the j-th event is the j-th of them. */
  lemma {:induction false} AllDelivered(seen: seq<Event>, start: nat, cursor: nat, j: nat)
    requires Increasing(seen) && forall k :: 0 <= k < |seen| ==> seen[k].id > start
    requires start + 1 + j <= cursor && forall id :: start < id <= cursor ==> Delivered(seen, id)
    ensures j < |seen| && seen[j].id == start + 1 + j
    decreases j
  {
    if j > 0 { AllDelivered(seen, start, cursor, j - 1); }
    assert Delivered(seen, start + 1 + j);
    var i :| 0 <= i < |seen| && seen[i].id == start + 1 + j;
    assert i >= j;
  }

  lemma FewerMissSome(seen: seq<Event>, recorded: seq<string>, start: nat, cursor: nat, lost: bool)
    requires SeenSound(seen, recorded, start, cursor, lost)
    ensures lost <==> exists id :: start < id <= cursor && !Delivered(seen, id)
  {
    if !lost {
      forall id | start < id <= cursor ensures Delivered(seen, id) { assert seen[id - start - 1].id == id; }
    } else if forall id :: start < id <= cursor ==> Delivered(seen, id) {
      AllDelivered(seen, start, cursor, cursor - start - 1);
    }
  }

  /**
   However recording and polling interleave, a client that follows `next` from any id sees strictly
   rising ids with the data recorded under them; and some poll reported a truncated history exactly
   if an event up to its cursor was never delivered.
   */
  lemma FollowingSeesInOrder(start: nat, steps: seq<Step>)
    ensures var w := RunWorld(World(Ring([], 0), [], start, [], false), steps);
            && Increasing(w.seen)
            && (forall k :: 0 <= k < |w.seen| ==> Recorded(w.seen[k], w.recorded) && start < w.seen[k].id <= w.cursor)
            && (!w.lost ==>
                  w.cursor == start + |w.seen| && forall k :: 0 <= k < |w.seen| ==> w.seen[k].id == start + 1 + k)
            && (w.lost <==> exists id :: start < id <= w.cursor && !Delivered(w.seen, id))
  {
    hide Next;
    var w0 := World(Ring([], 0), [], start, [], false);
    RunKeeps(w0, start, steps);
    var w := RunWorld(w0, steps);
    FewerMissSome(w.seen, w.recorded, start, w.cursor, w.lost);
  }

  predicate Kept(r: Ring, id: nat) {
    exists k :: 0 <= k < |r.events| && r.events[k].id == id
  }

  /** Recorded after this id, and no longer kept. */
  predicate Missed(r: Ring, after: nat, id: nat) {
    after < id <= r.latest && !Kept(r, id)
  }

  /** A poll reports a truncated history exactly when an event after its id is no longer kept. */
  lemma TruncatedMeansLost(r: Ring, recorded: seq<string>, after: nat, limit: nat)
    requires RingSound(r, recorded) && limit >= 1
    ensures Read(r, after, limit).truncated <==> exists id :: Missed(r, after, id)
  {
    if Read(r, after, limit).truncated {
      assert Missed(r, after, after + 1);
    } else {
      forall id | after < id <= r.latest ensures !Missed(r, after, id) {
        var k := id - 1 - (|recorded| - |r.events|);
        assert r.events != [] ==> r.events[0].id == |recorded| - |r.events| + 1;
        assert r.events[k].id == id;
      }
    }
  }

  /**
   A poll delivers the oldest kept events after its id, as many as there are up to its limit: no
   kept one is passed over, and none is held back unless the poll is full.
   */
  lemma PollExactly(r: Ring, recorded: seq<string>, after: nat, limit: nat)
    requires RingSound(r, recorded) && limit >= 1
    ensures var p := Read(r, after, limit);
            var later := if |recorded| <= after then 0 else |recorded| - after;
            var kept := if later <= |r.events| then later else |r.events|;
            && |p.events| == (if kept <= limit then kept else limit)
            && forall k :: 0 <= k < |p.events| ==>
                 p.events[k].id == |recorded| - kept + 1 + k && Recorded(p.events[k], recorded)
  {
    if r.events != [] {
      var n, first := |r.events|, r.events[0].id;
      AfterIsSuffix(r.events, first, after);
      var skip := if after < first then 0 else if after - first + 1 <= n then after - first + 1 else n;
      assert first == |recorded| - n + 1;
      hide After;
      var rows := After(r.events, after);
      assert rows == r.events[skip..];
      forall k | 0 <= k < |rows|
        ensures rows[k].id == |recorded| - |rows| + 1 + k && Recorded(rows[k], recorded)
      {
        assert rows[k] == r.events[skip + k] && Recorded(r.events[skip + k], recorded);
      }
      hide RingSound, Recorded;
    }
  }

  lemma AskAdvances(w: World, limit: nat)
    requires limit >= 1
    ensures var p, w' := Read(w.ring, w.cursor, limit), Next(w, Ask(limit));
            w'.cursor == p.next && w'.seen == w.seen + p.events
  {
  }

  /**
   In every run, each further poll brings a client something new until it has all there is, and one
   with a limit of what is outstanding brings it up to date.
   */
  lemma PollingCatchesUp(start: nat, steps: seq<Step>, limit: nat)
    requires limit >= 1
    ensures var w := RunWorld(World(Ring([], 0), [], start, [], false), steps);
            var w' := Next(w, Ask(limit));
            && (|w'.seen| > |w.seen| <==> w.cursor < |w.recorded|)
            && (w.cursor < |w.recorded| && (limit >= RING_LIMIT || w.cursor + limit >= |w.recorded|) ==>
                  w'.cursor == |w.recorded|)
  {
    var w0 := World(Ring([], 0), [], start, [], false);
    hide Read, Next;
    RunKeeps(w0, start, steps);
    var w := RunWorld(w0, steps);
    hide RunWorld;
    PollExactly(w.ring, w.recorded, w.cursor, limit);
    ReadMeans(w.ring, w.recorded, w.cursor, limit);
    AskAdvances(w, limit);
  }
}
