/**
 The frame callbacks of a nested surface in clients/nested.c: requested, committed,
 then told that the frame is done, or dropped with the surface.
 */
module NestedFrames {

  /** A done event: which callback, and the time it carries. */
  datatype Done = Done(callback: nat, time: nat)

  function Callbacks(done: seq<Done>): seq<nat> {
    seq(|done|, i requires 0 <= i < |done| => done[i].callback)
  }

  function AllDone(callbacks: seq<nat>, time: nat): seq<Done> {
    seq(|callbacks|, i requires 0 <= i < |callbacks| => Done(callbacks[i], time))
  }

  lemma CallbacksOfConcatenation(done: seq<Done>, more: seq<Done>)
    ensures Callbacks(done + more) == Callbacks(done) + Callbacks(more)
  {
  }

  lemma CallbacksOfAllDone(callbacks: seq<nat>, time: nat)
    ensures Callbacks(AllDone(callbacks, time)) == callbacks
  {
  }

  // -------------------------------------------------------- what callbacks go through

  datatype Event = Request(id: nat) | Commit | Flush(time: nat) | Destroy

  datatype State = State(
    requested: seq<nat>, pending: seq<nat>, committed: seq<nat>, done: seq<Done>, dropped: seq<nat>)

  function Step(s: State, e: Event): State {
    match e
    case Request(id) => s.(requested := s.requested + [id], pending := s.pending + [id])
    case Commit => s.(committed := s.pending + s.committed, pending := [])
    case Flush(time) => s.(done := s.done + AllDone(s.committed, time), committed := [])
    case Destroy => s.(dropped := s.dropped + s.committed + s.pending, committed := [], pending := [])
  }

  function Run(events: seq<Event>): State {
    if events == [] then State([], [], [], [], [])
    else Step(Run(events[..|events| - 1]), events[|events| - 1])
  }

  /** A callback is in one place: pending, committed, done or dropped. */
  ghost predicate Conserved(s: State) {
    multiset(s.requested)
      == multiset(s.pending) + multiset(s.committed) + multiset(Callbacks(s.done)) + multiset(s.dropped)
  }

  lemma StepConserves(s: State, e: Event)
    requires Conserved(s)
    ensures Conserved(Step(s, e))
  {
    if e.Flush? {
      CallbacksOfConcatenation(s.done, AllDone(s.committed, e.time));
      CallbacksOfAllDone(s.committed, e.time);
    }
  }

  lemma {:induction false} RunConserves(events: seq<Event>)
    ensures Conserved(Run(events))
  {
    if events != [] {
      RunConserves(events[..|events| - 1]);
      StepConserves(Run(events[..|events| - 1]), events[|events| - 1]);
    }
  }

  /** A callback requested once is told at most once that its frame is done, and
      never when it was dropped or still waits. */
  lemma DoneAtMostOnce(events: seq<Event>, id: nat)
    requires multiset(Run(events).requested)[id] <= 1
    ensures multiset(Callbacks(Run(events).done))[id] <= 1
    ensures var s := Run(events);
      id in Callbacks(s.done) ==> id !in s.pending && id !in s.committed && id !in s.dropped
  {
    var s := Run(events);
    RunConserves(events);
    assert id in s.pending ==> multiset(s.pending)[id] > 0;
    assert id in s.committed ==> multiset(s.committed)[id] > 0;
    assert id in s.dropped ==> multiset(s.dropped)[id] > 0;
    assert id in Callbacks(s.done) ==> multiset(Callbacks(s.done))[id] > 0;
  }

  /** Once the surface has committed and flushed, nothing asked for before waits. */
  lemma CommitThenFlush(events: seq<Event>, time: nat)
    ensures var s, t := Run(events), Run(events + [Commit, Flush(time)]);
      && t.pending == [] && t.committed == []
      && t.done == s.done + AllDone(s.pending + s.committed, time)
  {
    var all := events + [Commit, Flush(time)];
    assert all[..|all| - 1] == events + [Commit];
    assert (events + [Commit])[..|events|] == events;
  }

  // ------------------------------------------------------------- the surface's lists

  class SurfaceFrames {
    var pending: seq<nat>
    var frame_callbacks: seq<nat>
    /** Done events sent so far. */
    var done: seq<Done>
    ghost var requested: seq<nat>
    ghost var dropped: seq<nat>

    ghost function Now(): State
      reads this
    {
      State(requested, pending, frame_callbacks, done, dropped)
    }

    constructor ()
      ensures Now() == Run([])
    {
      pending, frame_callbacks, done, requested, dropped := [], [], [], [], [];
    }

    /** wl_surface.frame. */
    method RequestFrame(id: nat)
      modifies this
      ensures Now() == Step(old(Now()), Request(id))
    {
      pending := pending + [id];
      requested := requested + [id];
    }

    /** The part of wl_surface.commit about frames: the pending list goes in front. */
    method CommitFrames()
      modifies this
      ensures Now() == Step(old(Now()), Commit)
    {
      frame_callbacks := pending + frame_callbacks;
      pending := [];
    }

    /** The parent has drawn a frame: each callback is told and destroyed, and
        destroying it unlinks it. */
    method FlushFrames(time: nat)
      modifies this
      ensures Now() == Step(old(Now()), Flush(time))
    {
      ghost var sent := 0;
      while frame_callbacks != []
        invariant sent <= |old(frame_callbacks)|
        invariant frame_callbacks == old(frame_callbacks)[sent..]
        invariant done == old(done) + AllDone(old(frame_callbacks)[..sent], time)
        invariant pending == old(pending) && requested == old(requested) && dropped == old(dropped)
        decreases |frame_callbacks|
      {
        assert old(frame_callbacks)[..sent + 1] == old(frame_callbacks)[..sent] + [frame_callbacks[0]];
        done := done + [Done(frame_callbacks[0], time)];
        frame_callbacks := frame_callbacks[1..];
        sent := sent + 1;
      }
      assert old(frame_callbacks)[..sent] == old(frame_callbacks);
    }

    /** The surface goes away: its callbacks are destroyed without a done event. */
    method DestroyFrames()
      modifies this
      ensures Now() == Step(old(Now()), Destroy)
    {
      while frame_callbacks != []
        invariant dropped + frame_callbacks == old(dropped) + old(frame_callbacks)
        invariant pending == old(pending) && requested == old(requested) && done == old(done)
        decreases |frame_callbacks|
      {
        dropped := dropped + [frame_callbacks[0]];
        frame_callbacks := frame_callbacks[1..];
      }
      while pending != []
        invariant frame_callbacks == []
        invariant dropped + pending == old(dropped) + old(frame_callbacks) + old(pending)
        invariant requested == old(requested) && done == old(done)
        decreases |pending|
      {
        dropped := dropped + [pending[0]];
        pending := pending[1..];
      }
    }
  }
}
