/**
 The buffers of clients/simple-dmabuf-egl.c under explicit synchronisation: busy
 flags, release objects, and the release fences that must each be given to EGL or
 closed. Also the filter that keeps only the modifiers EGL supports.
 */
module DmabufEgl {

  datatype Release = NoRelease | Release(id: nat)

  /** release_fence_fd is -1 when no fence is stored. */
  datatype Buffer = Buffer(busy: bool, release: Release, release_fence_fd: int)

  const NUM_BUFFERS := 3

  /** live maps each release object not destroyed yet to the buffer it reports on. */
  datatype State = State(buffers: seq<Buffer>, live: map<nat, nat>, next: nat,
                         received: seq<int>, waited: seq<int>, closed: seq<int>)

  datatype Outcome = Running(state: State) | Aborted

  datatype Event = Redraw | FencedRelease(release: nat, fence: int) | ImmediateRelease(release: nat)

  /** The first buffer that is not busy, or the number of buffers. */
  function NextBuffer(buffers: seq<Buffer>): (i: nat)
    ensures i <= |buffers| && (i < |buffers| ==> !buffers[i].busy)
    ensures forall k | 0 <= k < i :: buffers[k].busy
  {
    if buffers == [] || !buffers[0].busy then 0 else 1 + NextBuffer(buffers[1..])
  }

  function Drawn(s: State, i: nat): State
    requires i < |s.buffers|
  {
    var b := s.buffers[i];
    s.(buffers := s.buffers[i := Buffer(true, Release(s.next), -1)],
       live := s.live[s.next := i], next := s.next + 1,
       waited := if b.release_fence_fd >= 0 then s.waited + [b.release_fence_fd] else s.waited)
  }

  /** The assertions of both release handlers. */
  predicate Expected(b: Buffer, release: nat) {
    b.release == Release(release) && b.release_fence_fd == -1
  }

  function Step(s: State, e: Event): Outcome
    requires Possible(s, e)
  {
    match e
    case Redraw =>
      var i := NextBuffer(s.buffers);
      if i == |s.buffers| then Aborted else Running(Drawn(s, i))
    case FencedRelease(release, fence) =>
      var i := s.live[release];
      if !Expected(s.buffers[i], release) then Aborted
      else Running(s.(buffers := s.buffers[i := Buffer(false, NoRelease, fence)], live := s.live - {release},
                      received := s.received + [fence]))
    case ImmediateRelease(release) =>
      var i := s.live[release];
      if !Expected(s.buffers[i], release) then Aborted
      else Running(s.(buffers := s.buffers[i := Buffer(false, NoRelease, -1)], live := s.live - {release}))
  }

  /** A release event comes once for a release object, on the object's buffer, and a
      received fence is a file descriptor. */
  predicate Possible(s: State, e: Event) {
    match e
    case Redraw => true
    case FencedRelease(release, fence) => release in s.live && s.live[release] < |s.buffers| && fence >= 0
    case ImmediateRelease(release) => release in s.live && s.live[release] < |s.buffers|
  }

  function Started(): State {
    State(seq(NUM_BUFFERS, i => Buffer(false, NoRelease, -1)), map[], 0, [], [], [])
  }

  // ---------------------------------------------------------------------- invariants

  function Holds(b: Buffer, fence: int): nat {
    if b.release_fence_fd == fence && fence >= 0 then 1 else 0
  }

  /** How many buffers store this fence. */
  function Held(buffers: seq<Buffer>, fence: int): nat {
    if buffers == [] then 0 else Held(buffers[..|buffers| - 1], fence) + Holds(buffers[|buffers| - 1], fence)
  }

  /** A buffer is busy exactly when it holds a release object, and a stored fence
      means it is free. */
  predicate Consistent(b: Buffer) {
    && (b.busy <==> b.release.Release?)
    && (b.release_fence_fd >= 0 ==> !b.busy)
    && b.release_fence_fd >= -1
  }

  ghost predicate Reports(s: State, release: nat) {
    release in s.live && release < s.next && s.live[release] < |s.buffers|
      && s.buffers[s.live[release]].release == Release(release)
  }

  ghost predicate Inv(s: State) {
    && |s.buffers| == NUM_BUFFERS
    && (forall i | 0 <= i < |s.buffers| :: Consistent(s.buffers[i]))
    && (forall i | 0 <= i < |s.buffers| :: s.buffers[i].release.Release? ==>
          s.buffers[i].release.id in s.live && s.live[s.buffers[i].release.id] == i)
    && (forall release | release in s.live :: Reports(s, release))
  }

  ghost predicate Accounted(s: State, fence: int) {
    multiset(s.received)[fence] == multiset(s.waited)[fence] + multiset(s.closed)[fence] + Held(s.buffers, fence)
  }

  /** Every fence received is in exactly one place. */
  ghost predicate Conserved(s: State) {
    forall fence :: Accounted(s, fence)
  }

  lemma StartedInv()
    ensures Inv(Started()) && Conserved(Started())
  {
    forall fence ensures Accounted(Started(), fence) {
      HeldNone(Started().buffers, fence);
    }
  }

  lemma {:induction false} HeldNone(buffers: seq<Buffer>, fence: int)
    requires forall i | 0 <= i < |buffers| :: buffers[i].release_fence_fd == -1
    ensures Held(buffers, fence) == 0
  {
    if buffers != [] {
      HeldNone(buffers[..|buffers| - 1], fence);
    }
  }

  lemma {:induction false} HeldUpdate(buffers: seq<Buffer>, i: nat, b: Buffer, fence: int)
    requires i < |buffers|
    ensures Held(buffers[i := b], fence) + Holds(buffers[i], fence) == Held(buffers, fence) + Holds(b, fence)
  {
    var last := |buffers| - 1;
    if i < last {
      assert buffers[i := b][..last] == buffers[..last][i := b];
      HeldUpdate(buffers[..last], i, b, fence);
      assert buffers[..last][i] == buffers[i] && buffers[i := b][last] == buffers[last];
    } else {
      assert buffers[i := b][..last] == buffers[..last];
    }
  }

  /** No assertion of the release handlers fails; the program only aborts when it has
      to draw and every buffer is busy. */
  lemma AbortsIff(s: State, e: Event)
    requires Inv(s) && Possible(s, e)
    ensures Step(s, e).Aborted? <==> e == Redraw && forall i | 0 <= i < |s.buffers| :: s.buffers[i].busy
  {
    if e != Redraw {
      assert Reports(s, e.release);
      assert Consistent(s.buffers[s.live[e.release]]);
    }
  }

  lemma AssertionsHold(s: State, release: nat)
    requires Inv(s) && release in s.live
    ensures s.live[release] < |s.buffers| && Expected(s.buffers[s.live[release]], release)
  {
    assert Reports(s, release);
    assert Consistent(s.buffers[s.live[release]]);
  }

  lemma DrawnInv(s: State, i: nat)
    requires Inv(s) && i < |s.buffers| && !s.buffers[i].busy
    ensures Inv(Drawn(s, i))
  {
    var t := Drawn(s, i);
    assert Consistent(s.buffers[i]);
    forall release | release in t.live ensures Reports(t, release) {
      if release != s.next {
        assert Reports(s, release);
      }
    }
    assert forall release | release in s.live :: Reports(s, release);
  }

  lemma ReleasedInv(s: State, release: nat, fence: int)
    requires Inv(s) && release in s.live && fence >= -1
    ensures Reports(s, release)
    ensures var i := s.live[release];
      Inv(s.(buffers := s.buffers[i := Buffer(false, NoRelease, fence)], live := s.live - {release}))
  {
    assert Reports(s, release);
    var i := s.live[release];
    var t := s.(buffers := s.buffers[i := Buffer(false, NoRelease, fence)], live := s.live - {release});
    forall r | r in t.live ensures Reports(t, r) {
      assert Reports(s, r);
    }
  }

  lemma StepInv(s: State, e: Event)
    requires Inv(s) && Possible(s, e)
    ensures Step(s, e).Running? ==> Inv(Step(s, e).state)
  {
    match e
    case Redraw => if Step(s, e).Running? { DrawnInv(s, NextBuffer(s.buffers)); }
    case FencedRelease(release, fence) => ReleasedInv(s, release, fence);
    case ImmediateRelease(release) => ReleasedInv(s, release, -1);
  }

  lemma DrawnConserves(s: State, i: nat)
    requires Conserved(s) && i < |s.buffers|
    ensures Conserved(Drawn(s, i))
  {
    var t := Drawn(s, i);
    forall fence ensures Accounted(t, fence) {
      assert Accounted(s, fence);
      HeldUpdate(s.buffers, i, t.buffers[i], fence);
    }
  }

  lemma ReleasedConserves(s: State, t: State, i: nat, fence: int)
    requires Conserved(s) && i < |s.buffers| && s.buffers[i].release_fence_fd == -1
    requires t.buffers == s.buffers[i := Buffer(false, NoRelease, fence)]
    requires t.received == (if fence >= 0 then s.received + [fence] else s.received)
    requires t.waited == s.waited && t.closed == s.closed
    ensures Conserved(t)
  {
    forall f ensures Accounted(t, f) {
      assert Accounted(s, f);
      HeldUpdate(s.buffers, i, Buffer(false, NoRelease, fence), f);
    }
  }

  lemma StepConserves(s: State, e: Event)
    requires Conserved(s) && Possible(s, e)
    ensures Step(s, e).Running? ==> Conserved(Step(s, e).state)
  {
    if Step(s, e).Running? {
      match e
      case Redraw => DrawnConserves(s, NextBuffer(s.buffers));
      case FencedRelease(release, fence) => ReleasedConserves(s, Step(s, e).state, s.live[release], fence);
      case ImmediateRelease(release) => ReleasedConserves(s, Step(s, e).state, s.live[release], -1);
    }
  }

  lemma StepKeeps(s: State, e: Event)
    requires Sound(s) && Possible(s, e)
    ensures Step(s, e).Running? ==> Sound(Step(s, e).state)
  {
    StepInv(s, e);
    StepConserves(s, e);
  }

  ghost predicate Sound(s: State) {
    Inv(s) && Conserved(s)
  }

  ghost predicate AllPossible(s: State, events: seq<Event>)
    decreases |events|
  {
    events == [] || (
      Possible(s, events[0]) &&
      (Step(s, events[0]).Running? ==> AllPossible(Step(s, events[0]).state, events[1..])))
  }

  ghost function Run(s: State, events: seq<Event>): Outcome
    requires AllPossible(s, events)
    decreases |events|
  {
    if events == [] then Running(s)
    else
      var o := Step(s, events[0]);
      if o.Aborted? then Aborted else Run(o.state, events[1..])
  }

  /** In every run each buffer is busy exactly while it holds a release object, and each
      fence received so far was given to EGL once, or is stored. */
  lemma {:induction false} RunKeeps(s: State, events: seq<Event>)
    requires Sound(s) && AllPossible(s, events)
    ensures Run(s, events).Running? ==> Sound(Run(s, events).state)
    decreases |events|
  {
    if events != [] {
      StepKeeps(s, events[0]);
      var o := Step(s, events[0]);
      if o.Running? {
        RunKeeps(o.state, events[1..]);
      }
    }
  }

  // ------------------------------------------------------------------------ the end

  /** Freeing a buffer closes its fence. */
  function Freed(s: State, i: nat): State
    requires i < |s.buffers|
  {
    var b := s.buffers[i];
    s.(buffers := s.buffers[i := b.(release_fence_fd := -1)],
       closed := if b.release_fence_fd >= 0 then s.closed + [b.release_fence_fd] else s.closed)
  }

  lemma FreedConserves(s: State, i: nat)
    requires i < |s.buffers| && Conserved(s)
    ensures Conserved(Freed(s, i))
  {
    var t := Freed(s, i);
    forall fence ensures Accounted(t, fence) {
      assert Accounted(s, fence);
      HeldUpdate(s.buffers, i, t.buffers[i], fence);
    }
  }

  function FreedAll(s: State, n: nat): (t: State)
    requires n <= |s.buffers|
    ensures |t.buffers| == |s.buffers|
    ensures forall k | n <= k < |s.buffers| :: t.buffers[k] == s.buffers[k]
  {
    if n == 0 then s else Freed(FreedAll(s, n - 1), n - 1)
  }

  lemma {:induction false} FreedAllConserves(s: State, n: nat)
    requires n <= |s.buffers| && Conserved(s)
    ensures Conserved(FreedAll(s, n)) && FreedAll(s, n).received == s.received && FreedAll(s, n).waited == s.waited
    ensures forall k | 0 <= k < n :: FreedAll(s, n).buffers[k].release_fence_fd == -1
  {
    if n > 0 {
      var t := FreedAll(s, n - 1);
      FreedAllConserves(s, n - 1);
      FreedConserves(t, n - 1);
      assert forall k | 0 <= k < n - 1 :: Freed(t, n - 1).buffers[k] == t.buffers[k];
    }
  }

  /** In the end every fence ever received was given to EGL or closed, each as often as
      it was received. */
  lemma NoFenceLeft(s: State)
    requires Sound(s)
    ensures var t := FreedAll(s, |s.buffers|);
      t.received == s.received && multiset(t.received) == multiset(t.waited) + multiset(t.closed)
  {
    var t := FreedAll(s, |s.buffers|);
    FreedAllConserves(s, |s.buffers|);
    forall fence ensures multiset(t.received)[fence] == (multiset(t.waited) + multiset(t.closed))[fence] {
      assert Accounted(t, fence);
      HeldNone(t.buffers, fence);
    }
  }

  // ----------------------------------------------------------------------- the object

  class Window {
    const buffers: array<Buffer>
    ghost var live: map<nat, nat>
    var next: nat
    ghost var received: seq<int>
    var waited: seq<int>
    var closed: seq<int>

    ghost function Value(): State
      reads this, buffers
    {
      State(buffers[..], live, next, received, waited, closed)
    }

    ghost predicate Valid()
      reads this, buffers
    {
      Sound(Value())
    }

    constructor ()
      ensures Valid() && fresh(buffers) && Value() == Started()
    {
      buffers := new Buffer[NUM_BUFFERS](i => Buffer(false, NoRelease, -1));
      live, next, received, waited, closed := map[], 0, [], [], [];
      new;
      assert buffers[..] == Started().buffers;
      StartedInv();
    }

    method FindNextBuffer() returns (i: nat)
      ensures i == NextBuffer(buffers[..])
    {
      i := 0;
      while i < buffers.Length && buffers[i].busy
        invariant i <= buffers.Length && NextBuffer(buffers[..]) == i + NextBuffer(buffers[i..])
      {
        assert buffers[i..][1..] == buffers[i + 1..];
        i := i + 1;
      }
    }

    /** False when every buffer is busy, where the program aborts. */
    method Redraw() returns (ok: bool)
      requires Valid()
      modifies this, buffers
      ensures (if ok then Running(Value()) else Aborted) == Step(old(Value()), Event.Redraw)
      ensures Valid()
    {
      StepKeeps(Value(), Event.Redraw);
      var i := FindNextBuffer();
      ok := i < buffers.Length;
      if ok {
        Draw(i);
      }
    }

    /** Waits for the fence, draws, and asks for a release object. */
    method Draw(i: nat)
      requires i < buffers.Length && buffers[i].release_fence_fd >= -1
      modifies this, buffers
      ensures Value() == Drawn(old(Value()), i)
    {
      if buffers[i].release_fence_fd >= 0 {
        WaitForReleaseFence(i);
      }
      buffers[i] := buffers[i].(busy := true, release := Release(next));
      live := live[next := i];
      next := next + 1;
    }

    /** EGL takes over the fence. */
    method WaitForReleaseFence(i: nat)
      requires i < buffers.Length
      modifies buffers, this`waited
      ensures waited == old(waited) + [old(buffers[i]).release_fence_fd]
      ensures buffers[..] == old(buffers[..])[i := old(buffers[i]).(release_fence_fd := -1)]
    {
      waited := waited + [buffers[i].release_fence_fd];
      buffers[i] := buffers[i].(release_fence_fd := -1);
    }

    /** The listener of a release object; the buffer is the one given with it. */
    method TakeFencedRelease(release: nat, i: nat, fence: int)
      requires Valid() && release in live && live[release] == i && fence >= 0
      modifies this`live, this`received, buffers
      ensures Valid() && Running(Value()) == Step(old(Value()), FencedRelease(release, fence))
    {
      ghost var was := Value();
      AbortsIff(was, FencedRelease(release, fence));
      StepKeeps(was, FencedRelease(release, fence));
      AssertionsHold(was, release);
      assert buffers[i].release == Release(release);
      assert buffers[i].release_fence_fd == -1;
      buffers[i] := Buffer(false, NoRelease, fence);
      live := live - {release};
      received := received + [fence];
    }

    method TakeImmediateRelease(release: nat, i: nat)
      requires Valid() && release in live && live[release] == i
      modifies this`live, buffers
      ensures Valid() && Running(Value()) == Step(old(Value()), ImmediateRelease(release))
    {
      ghost var was := Value();
      AbortsIff(was, ImmediateRelease(release));
      StepKeeps(was, ImmediateRelease(release));
      AssertionsHold(was, release);
      assert buffers[i].release == Release(release);
      assert buffers[i].release_fence_fd == -1;
      buffers[i] := Buffer(false, NoRelease, buffers[i].release_fence_fd);
      live := live - {release};
    }

    method Destroy()
      requires Valid()
      modifies this`closed, buffers
      ensures Value() == FreedAll(old(Value()), NUM_BUFFERS)
      ensures multiset(received) == multiset(waited) + multiset(closed)
    {
      NoFenceLeft(Value());
      ghost var was := Value();
      for i := 0 to buffers.Length
        invariant Value() == FreedAll(was, i)
      {
        assert Consistent(was.buffers[i]);
        FreeBuffer(i);
      }
    }

    method FreeBuffer(i: nat)
      requires i < buffers.Length && buffers[i].release_fence_fd >= -1
      modifies this`closed, buffers
      ensures Value() == Freed(old(Value()), i)
    {
      ghost var was := buffers[..];
      if buffers[i].release_fence_fd >= 0 {
        closed := closed + [buffers[i].release_fence_fd];
        buffers[i] := buffers[i].(release_fence_fd := -1);
      } else {
        assert was[i].release_fence_fd == -1;
      }
      assert buffers[..] == was[i := was[i].(release_fence_fd := -1)];
    }
  }

  // -------------------------------------------------------------- supported modifiers

  type Modifier = m: int | 0 <= m < 0x1_0000_0000_0000_0000
  const MOD_INVALID: Modifier := 0x00FF_FFFF_FFFF_FFFF

  /** What EGL answers for the buffer format, if it knows modifiers at all. */
  datatype Query = NoModifiers | Failed | Supported(modifiers: seq<Modifier>)

  function Kept(modifiers: seq<Modifier>, egl: seq<Modifier>): seq<Modifier> {
    seq(|modifiers|, i requires 0 <= i < |modifiers| => if modifiers[i] in egl then modifiers[i] else MOD_INVALID)
  }

  class Display {
    var modifiers: array<Modifier>
    var modifiers_count: nat

    ghost predicate Valid()
      reads this
    {
      modifiers_count <= modifiers.Length
    }

    constructor (modifiers: array<Modifier>)
      ensures this.modifiers == modifiers && modifiers_count == modifiers.Length
    {
      this.modifiers, modifiers_count := modifiers, modifiers.Length;
    }

    method UpdateSupportedModifiers(query: Query) returns (ok: bool)
      requires Valid()
      modifies this`modifiers_count, modifiers
      ensures Valid() && ok == !(query.Failed? || query == Supported([]))
      ensures query.NoModifiers? ==> modifiers_count == 0
      ensures !ok ==> modifiers_count == old(modifiers_count) && modifiers[..] == old(modifiers[..])
      ensures ok && query.Supported? ==>
        && modifiers_count == old(modifiers_count)
        && modifiers[..modifiers_count] == Kept(old(modifiers[..modifiers_count]), query.modifiers)
        && modifiers[modifiers_count..] == old(modifiers[modifiers_count..])
    {
      if query.NoModifiers? {
        modifiers_count := 0;
        return true;
      }
      if query.Failed? || query == Supported([]) {
        return false;
      }
      var egl := query.modifiers;
      for i := 0 to modifiers_count
        invariant modifiers_count == old(modifiers_count)
        invariant forall k | 0 <= k < i ::
          modifiers[k] == if old(modifiers[k]) in egl then old(modifiers[k]) else MOD_INVALID
        invariant forall k | i <= k < modifiers.Length :: modifiers[k] == old(modifiers[k])
      {
        var mod := modifiers[i];
        var supported := false;
        for j := 0 to |egl|
          invariant !supported && forall k | 0 <= k < j :: egl[k] != mod
        {
          if egl[j] == mod {
            supported := true;
            break;
          }
        }
        if !supported {
          modifiers[i] := MOD_INVALID;
        }
      }
      return true;
    }
  }

  /** What is left is the intersection: no new modifiers but the invalid one. */
  lemma KeptIsIntersection(modifiers: seq<Modifier>, egl: seq<Modifier>, m: Modifier)
    requires m != MOD_INVALID
    ensures m in Kept(modifiers, egl) <==> m in modifiers && m in egl
  {
    var kept := Kept(modifiers, egl);
    if m in modifiers && m in egl {
      var i :| 0 <= i < |modifiers| && modifiers[i] == m;
      assert kept[i] == m;
    }
  }
}
