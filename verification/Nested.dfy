/**
 The buffers of the nested compositor in clients/nested.c: references that count
 how often a buffer is busy, destroy listeners that clear them, and the release
 event that tells a client its buffer is free again.
 */
module Nested {

  // -------------------------------------------------------------- busy periods

  function Last(counts: seq<nat>): nat {
    if counts == [] then 0 else counts[|counts| - 1]
  }

  /** How often a history of busy counts leaves 0. */
  function Departures(counts: seq<nat>): nat {
    if counts == [] then 0
    else
      var before := counts[..|counts| - 1];
      Departures(before) + if Last(before) == 0 && Last(counts) > 0 then 1 else 0
  }

  /** How often a history of busy counts returns to 0. */
  function Returns(counts: seq<nat>): nat {
    if counts == [] then 0
    else
      var before := counts[..|counts| - 1];
      Returns(before) + if Last(before) > 0 && Last(counts) == 0 then 1 else 0
  }

  /** Every busy period that is over has returned to 0 once. */
  lemma {:induction false} OneReturnPerPeriod(counts: seq<nat>)
    ensures Departures(counts) == Returns(counts) + if Last(counts) > 0 then 1 else 0
  {
    if counts != [] {
      OneReturnPerPeriod(counts[..|counts| - 1]);
    }
  }

  lemma AnotherCount(counts: seq<nat>, count: nat)
    ensures Last(counts + [count]) == count
    ensures Returns(counts + [count]) == Returns(counts) + if Last(counts) > 0 && count == 0 then 1 else 0
    ensures Departures(counts + [count]) == Departures(counts) + if Last(counts) == 0 && count > 0 then 1 else 0
  {
    assert (counts + [count])[..|counts + [count]| - 1] == counts;
  }

  // ------------------------------------------------------------------ the heap

  class BufferReference {
    var buffer: NestedBuffer?
    /** The surface or buffer this reference is a part of. */
    ghost var owner: object?

    constructor ()
      ensures buffer == null
    {
      buffer := null;
    }
  }

  class NestedBuffer {
    /** The references and surfaces listening for the buffer's destruction. */
    var listeners: set<BufferReference>
    var watchers: set<NestedSurface>
    var busy_count: nat
    /** Whether the parent compositor has a buffer for the same data. */
    var parent_buffer: bool
    const parent_ref: BufferReference
    /** Release events sent to the client. */
    var released: nat
    /** Every value of busy_count. */
    ghost var counts: seq<nat>

    constructor ()
      ensures fresh(parent_ref) && parent_ref.buffer == null && parent_ref.owner == this
      ensures listeners == {} && watchers == {} && busy_count == 0 && !parent_buffer && released == 0 && counts == []
    {
      var ref := new BufferReference();
      parent_ref := ref;
      listeners, watchers, busy_count, parent_buffer, released, counts := {}, {}, 0, false, 0, [];
      new;
      parent_ref.owner := this;
    }

    /** busy_count is the number of references, and every busy period that is over
        has sent one release. */
    ghost predicate Tallied()
      reads this`busy_count, this`listeners, this`released, this`counts
    {
      busy_count == |listeners| == Last(counts) && released == Returns(counts)
    }

    /** What losing or gaining a reference changes. */
    ghost predicate Lost(ref: BufferReference, listeners: set<BufferReference>, counts: seq<nat>, released: nat)
      reads this`listeners, this`counts, this`released
    {
      && this.listeners == listeners - {ref}
      && this.counts == counts + [|this.listeners|]
      && this.released == released + if this.listeners == {} then 1 else 0
    }

    ghost predicate Gained(ref: BufferReference, listeners: set<BufferReference>, counts: seq<nat>, released: nat)
      reads this`listeners, this`counts, this`released
    {
      && this.listeners == listeners + {ref}
      && this.counts == counts + [|this.listeners|]
      && this.released == released
    }

    ghost predicate Kept(listeners: set<BufferReference>, counts: seq<nat>, released: nat)
      reads this`listeners, this`counts, this`released
    {
      this.listeners == listeners && this.counts == counts && this.released == released
    }

    ghost predicate Held(ref: BufferReference, already: bool, listeners: set<BufferReference>,
                         counts: seq<nat>, released: nat)
      reads this`listeners, this`counts, this`released
    {
      if already then Kept(listeners, counts, released) else Gained(ref, listeners, counts, released)
    }

    /** One reference less; the last one releases the buffer. */
    method Drop(ref: BufferReference)
      requires Tallied() && ref in listeners
      modifies this`listeners, this`busy_count, this`released, this`counts
      ensures Tallied() && Lost(ref, old(listeners), old(counts), old(released))
    {
      busy_count := busy_count - 1;
      if busy_count == 0 {
        released := released + 1;
      }
      listeners := listeners - {ref};
      AnotherCount(counts, busy_count);
      counts := counts + [busy_count];
    }

    method Take(ref: BufferReference)
      requires Tallied() && ref !in listeners
      modifies this`listeners, this`busy_count, this`counts
      ensures Tallied() && Gained(ref, old(listeners), old(counts), old(released))
    {
      busy_count := busy_count + 1;
      listeners := listeners + {ref};
      AnotherCount(counts, busy_count);
      counts := counts + [busy_count];
    }
  }

  class NestedSurface {
    const buffer_ref: BufferReference
    var newly_attached: bool
    var pending: NestedBuffer?
    var image: bool

    constructor ()
      ensures fresh(buffer_ref) && buffer_ref.buffer == null && buffer_ref.owner == this
      ensures !newly_attached && pending == null && !image
    {
      var ref := new BufferReference();
      buffer_ref := ref;
      newly_attached, pending, image := false, null, false;
      new;
      buffer_ref.owner := this;
    }
  }

  ghost function Just(b: NestedBuffer?): set<NestedBuffer> {
    if b == null then {} else {b}
  }

  class Nested {
    /** The blit renderer, or else the subsurface renderer. */
    const blit: bool
    ghost var refs: set<BufferReference>
    /** The buffers not destroyed yet. */
    ghost var buffers: set<NestedBuffer>
    var surfaces: set<NestedSurface>

    /** A buffer's listeners are the references to it, and no reference names a
        destroyed buffer. */
    ghost predicate Counted()
      reads this`refs, this`buffers, refs`buffer,
        buffers`busy_count, buffers`listeners, buffers`released, buffers`counts
    {
      && (forall b <- buffers :: b.Tallied())
      && (forall b <- buffers, r <- b.listeners :: r in refs && r.buffer == b)
      && (forall r <- refs :: r.buffer != null ==> r.buffer in buffers && r in r.buffer.listeners)
    }

    /** A buffer's watchers are the surfaces it is pending on. */
    ghost predicate Watched()
      reads this`buffers, this`surfaces, buffers`watchers, surfaces`pending
    {
      && (forall b <- buffers, s <- b.watchers :: s in surfaces && s.pending == b)
      && (forall s <- surfaces :: s.pending != null ==> s.pending in buffers && s in s.pending.watchers)
    }

    /** Whose references they are: a surface's is used by the blit renderer, a
        buffer's own while the parent compositor has it. */
    ghost predicate Owned()
      reads this`refs, this`buffers, this`surfaces, refs`buffer, refs`owner, buffers`parent_buffer
    {
      && (forall b <- buffers :: b.parent_ref in refs)
      && (forall s <- surfaces :: s.buffer_ref in refs)
      && (forall b <- buffers :: b.parent_ref.owner == b)
      && (forall s <- surfaces :: s.buffer_ref.owner == s)
      && (forall b <- buffers :: b.parent_ref.buffer != null ==> b.parent_ref.buffer == b && b.parent_buffer && !blit)
      && (forall s <- surfaces :: s.buffer_ref.buffer != null ==> blit)
    }

    ghost predicate Valid()
      reads this, refs, buffers, surfaces
    {
      Counted() && Watched() && Owned()
    }

    /** What the invariant means for a client: the count is the number of
        references, and each busy period that is over sent exactly one release. */
    lemma BusyMeansReferenced(b: NestedBuffer)
      requires Valid() && b in buffers
      ensures b.busy_count == |set r <- refs | r.buffer == b|
      ensures b.released + (if b.busy_count > 0 then 1 else 0) == Departures(b.counts)
    {
      assert b.listeners == set r <- refs | r.buffer == b;
      OneReturnPerPeriod(b.counts);
    }

    constructor (blit: bool)
      ensures Valid() && refs == {} && buffers == {} && surfaces == {}
    {
      this.blit, refs, buffers, surfaces := blit, {}, {}, {};
    }

    method LetGo(ref: BufferReference)
      requires Counted() && ref in refs && ref.buffer != null
      modifies ref`buffer, ref.buffer`busy_count, ref.buffer`listeners, ref.buffer`released, ref.buffer`counts
      ensures Counted() && ref.buffer == null
      ensures var was := old(ref.buffer); was.Lost(ref, old(was.listeners), old(was.counts), old(was.released))
    {
      ghost var was := ref.buffer;
      ref.buffer.Drop(ref);
      ref.buffer := null;
      assert was.listeners == old(was.listeners) - {ref};
      assert forall b <- buffers :: b.Tallied();
      assert forall b <- buffers, r <- b.listeners :: r in refs && r.buffer == b;
    }

    method Hold(ref: BufferReference, buffer: NestedBuffer)
      requires Counted() && ref in refs && ref.buffer == null && buffer in buffers
      modifies ref`buffer, buffer`busy_count, buffer`listeners, buffer`counts
      ensures Counted() && ref.buffer == buffer
      ensures buffer.Gained(ref, old(buffer.listeners), old(buffer.counts), old(buffer.released))
    {
      buffer.Take(ref);
      ref.buffer := buffer;
    }

    method Reference(ref: BufferReference, buffer: NestedBuffer?)
      requires Counted() && ref in refs && (buffer != null ==> buffer in buffers)
      modifies ref`buffer, Just(ref.buffer)`busy_count,
        Just(ref.buffer)`listeners, Just(ref.buffer)`released, Just(ref.buffer)`counts
      modifies Just(buffer)`busy_count, Just(buffer)`listeners, Just(buffer)`counts
      ensures Counted() && ref.buffer == buffer
      ensures buffer != null ==>
        buffer.Held(ref, old(ref.buffer == buffer), old(buffer.listeners), old(buffer.counts), old(buffer.released))
      ensures old(ref.buffer) != null && old(ref.buffer) != buffer ==>
        var was := old(ref.buffer); was.Lost(ref, old(was.listeners), old(was.counts), old(was.released))
    {
      if buffer == ref.buffer {
        return;
      }
      if ref.buffer != null {
        LetGo(ref);
      }
      if buffer != null {
        Hold(ref, buffer);
      }
    }

    /** A client's buffer is met for the first time. */
    method CreateBuffer() returns (b: NestedBuffer)
      requires Valid()
      modifies this`refs, this`buffers
      ensures Valid() && fresh(b) && fresh(b.parent_ref)
      ensures buffers == old(buffers) + {b} && refs == old(refs) + {b.parent_ref}
      ensures b.busy_count == 0 && b.released == 0
    {
      b := new NestedBuffer();
      AddBuffer(b);
    }

    method AddBuffer(b: NestedBuffer)
      requires Valid() && b !in buffers && b.parent_ref !in refs
      requires b.listeners == {} && b.watchers == {} && b.busy_count == 0 && b.released == 0 && b.counts == []
      requires b.parent_ref.buffer == null && b.parent_ref.owner == b
      modifies this`refs, this`buffers
      ensures Valid() && buffers == old(buffers) + {b} && refs == old(refs) + {b.parent_ref}
    {
      buffers := buffers + {b};
      refs := refs + {b.parent_ref};
    }

    method CreateSurface() returns (s: NestedSurface)
      requires Valid()
      modifies this`refs, this`surfaces
      ensures Valid() && fresh(s) && fresh(s.buffer_ref)
      ensures surfaces == old(surfaces) + {s} && refs == old(refs) + {s.buffer_ref}
    {
      s := new NestedSurface();
      AddSurface(s);
    }

    method AddSurface(s: NestedSurface)
      requires Valid() && s !in surfaces && s.buffer_ref !in refs
      requires s.pending == null && s.buffer_ref.buffer == null && s.buffer_ref.owner == s
      modifies this`refs, this`surfaces
      ensures Valid() && surfaces == old(surfaces) + {s} && refs == old(refs) + {s.buffer_ref}
    {
      surfaces := surfaces + {s};
      refs := refs + {s.buffer_ref};
    }

    /** The surfaces a dying buffer is pending on forget it. */
    method TellWatchers(b: NestedBuffer)
      requires Watched() && b in buffers
      modifies b.watchers`pending, b`watchers
      ensures Watched() && b.watchers == {}
      ensures forall s <- surfaces :: s.pending == if old(s.pending) == b then null else old(s.pending)
    {
      forall s | s in b.watchers {
        s.pending := null;
      }
      b.watchers := {};
    }

    /** The references to a dying buffer are cleared, and it is freed. */
    method TellListeners(b: NestedBuffer)
      requires Counted() && b in buffers && b.parent_ref in refs
      requires b.parent_ref.buffer != null ==> b.parent_ref.buffer == b
      modifies b.listeners`buffer, this`buffers, this`refs
      ensures Counted() && buffers == old(buffers) - {b} && refs == old(refs) - {b.parent_ref}
      ensures forall r <- old(refs) :: r.buffer == if old(r.buffer) == b then null else old(r.buffer)
    {
      assert forall r <- b.listeners :: r.buffer == b;
      forall r | r in b.listeners {
        r.buffer := null;
      }
      refs := refs - {b.parent_ref};
      buffers := buffers - {b};
    }

    /** The other references are still whose they were. */
    twostate lemma OwnedWithout(b: NestedBuffer)
      requires old(Owned()) && b in old(buffers)
      requires buffers == old(buffers) - {b} && refs == old(refs) - {b.parent_ref} && surfaces == old(surfaces)
      requires unchanged(old(buffers)`parent_buffer) && unchanged(old(refs)`owner)
      requires forall r <- refs :: r.buffer == if old(r.buffer) == b then null else old(r.buffer)
      ensures Owned()
    {
    }

    /** The client destroys a buffer: every listener is told, then it is freed. */
    method DestroyBuffer(b: NestedBuffer)
      requires Valid() && b in buffers
      modifies b.listeners`buffer, b.watchers`pending, b`watchers, this`buffers, this`refs
      ensures Valid() && buffers == old(buffers) - {b} && refs == old(refs) - {b.parent_ref}
      ensures forall r <- refs :: r.buffer == if old(r.buffer) == b then null else old(r.buffer)
      ensures forall s <- surfaces :: s.pending == if old(s.pending) == b then null else old(s.pending)
    {
      TellWatchers(b);
      assert Counted() && Owned();
      TellListeners(b);
      OwnedWithout(b);
      assert Watched();
    }

    method Unwatch(s: NestedSurface)
      requires Watched() && s in surfaces
      modifies s`pending, Just(s.pending)`watchers
      ensures Watched() && s.pending == null
    {
      if s.pending != null {
        s.pending.watchers := s.pending.watchers - {s};
      }
      s.pending := null;
    }

    method Watch(s: NestedSurface, buffer: NestedBuffer)
      requires Watched() && s in surfaces && s.pending == null && buffer in buffers
      modifies s`pending, buffer`watchers
      ensures Watched() && s.pending == buffer
    {
      s.pending := buffer;
      buffer.watchers := buffer.watchers + {s};
    }

    /** wl_surface.attach: refused unless the buffer has a known format. */
    method Attach(s: NestedSurface, buffer: NestedBuffer?, known: bool)
      requires Valid() && s in surfaces && (buffer != null ==> buffer in buffers)
      modifies s`pending, s`newly_attached, Just(s.pending)`watchers, Just(buffer)`watchers
      ensures Valid()
      ensures buffer != null && !known ==> s.pending == old(s.pending) && s.newly_attached == old(s.newly_attached)
      ensures buffer == null || known ==> s.pending == buffer && s.newly_attached
    {
      if buffer != null && !known {
        return;
      }
      Unwatch(s);
      if buffer != null {
        Watch(s, buffer);
      }
      s.newly_attached := true;
    }

    /** The reference an attached buffer is held by. */
    function Holder(s: NestedSurface, b: NestedBuffer): BufferReference {
      if blit then s.buffer_ref else b.parent_ref
    }

    /** A surface's reference may name any buffer while the blit renderer is used. */
    twostate lemma OwnedAfterBlit(s: NestedSurface)
      requires old(Owned()) && blit && s in surfaces && old(allocated(s))
      requires buffers == old(buffers) && refs == old(refs) && surfaces == old(surfaces)
      requires unchanged(buffers`parent_buffer) && unchanged(refs`owner)
      requires unchanged(refs - {s.buffer_ref}`buffer)
      ensures Owned()
    {
    }

    method BlitAttach(s: NestedSurface, buffer: NestedBuffer)
      requires Valid() && blit && s in surfaces && buffer in buffers
      modifies s.buffer_ref`buffer
      modifies Just(s.buffer_ref.buffer)`busy_count,
        Just(s.buffer_ref.buffer)`listeners, Just(s.buffer_ref.buffer)`released, Just(s.buffer_ref.buffer)`counts
      modifies buffer`busy_count, buffer`listeners, buffer`counts
      ensures Valid() && s.buffer_ref.buffer == buffer
      ensures buffer.Held(s.buffer_ref, old(s.buffer_ref.buffer == buffer),
        old(buffer.listeners), old(buffer.counts), old(buffer.released))
      ensures old(s.buffer_ref.buffer) != null && old(s.buffer_ref.buffer) != buffer ==>
        var was := old(s.buffer_ref.buffer);
        was.Lost(s.buffer_ref, old(was.listeners), old(was.counts), old(was.released))
    {
      Reference(s.buffer_ref, buffer);
      assert Watched();
      OwnedAfterBlit(s);
    }

    /** A buffer's own reference names the buffer or nothing. */
    method ParentReference(buffer: NestedBuffer, target: NestedBuffer?)
      requires Counted() && Owned() && buffer in buffers && buffer.parent_buffer && !blit
        && (target == buffer || target == null)
      modifies buffer.parent_ref`buffer, buffer`busy_count, buffer`listeners, buffer`released, buffer`counts
      ensures Counted() && Owned() && buffer.parent_ref.buffer == target
      ensures target == buffer ==>
        buffer.Held(buffer.parent_ref, old(buffer.parent_ref.buffer == buffer),
          old(buffer.listeners), old(buffer.counts), old(buffer.released))
      ensures target == null && old(buffer.parent_ref.buffer) != null ==>
        buffer.Lost(buffer.parent_ref, old(buffer.listeners), old(buffer.counts), old(buffer.released))
      ensures target == null && old(buffer.parent_ref.buffer) == null ==>
        buffer.Kept(old(buffer.listeners), old(buffer.counts), old(buffer.released))
    {
      Reference(buffer.parent_ref, target);
    }

    /** The parent's buffer is made once; its own reference holds the client's
        buffer until the parent has released it. */
    method SubsurfaceAttach(buffer: NestedBuffer)
      requires Valid() && !blit && buffer in buffers
      modifies buffer.parent_ref`buffer, buffer`parent_buffer, buffer`busy_count,
        buffer`listeners, buffer`released, buffer`counts
      ensures Valid() && buffer.parent_ref.buffer == buffer && buffer.parent_buffer
      ensures buffer.Held(buffer.parent_ref, old(buffer.parent_ref.buffer == buffer),
        old(buffer.listeners), old(buffer.counts), old(buffer.released))
    {
      MakeParentBuffer(buffer);
      ParentReference(buffer, buffer);
    }

    /** The parent compositor has finished with its buffer. */
    method ParentRelease(buffer: NestedBuffer)
      requires Valid() && buffer in buffers && buffer.parent_buffer && !blit
      modifies buffer.parent_ref`buffer, buffer`busy_count, buffer`listeners, buffer`released, buffer`counts
      ensures Valid() && buffer.parent_ref.buffer == null
      ensures old(buffer.parent_ref.buffer) == null ==>
        buffer.Kept(old(buffer.listeners), old(buffer.counts), old(buffer.released))
      ensures old(buffer.parent_ref.buffer) != null ==>
        buffer.Lost(buffer.parent_ref, old(buffer.listeners), old(buffer.counts), old(buffer.released))
    {
      ParentReference(buffer, null);
    }

    method MakeParentBuffer(buffer: NestedBuffer)
      requires Owned()
      modifies buffer`parent_buffer
      ensures Owned() && buffer.parent_buffer
    {
      if !buffer.parent_buffer {
        buffer.parent_buffer := true;
      }
    }

    /** What attaching the pending buffer to the renderer changes. */
    method AttachPending(s: NestedSurface, b: NestedBuffer)
      requires Valid() && s in surfaces && b in buffers
      modifies refs`buffer, buffers`busy_count, buffers`listeners, buffers`released, buffers`counts, b`parent_buffer
      ensures Valid()
      ensures forall r <- refs :: r.buffer == if r == Holder(s, b) then b else old(r.buffer)
      ensures b.Held(Holder(s, b), old(Holder(s, b).buffer == b), old(b.listeners), old(b.counts), old(b.released))
    {
      if blit {
        BlitAttach(s, b);
      } else {
        SubsurfaceAttach(b);
      }
    }

    /** Making the EGL image may fail; then nothing is attached. */
    method AttachNew(s: NestedSurface, created: bool)
      requires Valid() && s in surfaces && (s.newly_attached ==> s.pending != null)
      modifies s`image, refs`buffer
      modifies buffers`busy_count, buffers`listeners, buffers`released, buffers`counts, buffers`parent_buffer
      ensures Valid()
      ensures s.image == if old(s.newly_attached) then created else old(s.image)
      ensures forall r <- refs :: (
        r.buffer == if old(s.newly_attached) && created && r == Holder(s, old(s.pending)) then
          old(s.pending) else old(r.buffer))
      ensures old(s.newly_attached) && created ==>
        var b := old(s.pending);
        var ref := Holder(s, b);
        b.Held(ref, old(ref.buffer == b), old(b.listeners), old(b.counts), old(b.released))
    {
      if s.newly_attached {
        s.image := created;
        if created {
          AttachPending(s, s.pending);
        }
      }
    }

    method ClearPending(s: NestedSurface)
      requires Watched() && s in surfaces
      modifies s`pending, s`newly_attached, Just(s.pending)`watchers
      ensures Watched() && s.pending == null && !s.newly_attached
    {
      Unwatch(s);
      s.newly_attached := false;
    }

    /** wl_surface.commit. */
    method Commit(s: NestedSurface, created: bool)
      requires Valid() && s in surfaces && (s.newly_attached ==> s.pending != null)
      modifies s`image, s`newly_attached, s`pending, refs`buffer
      modifies buffers`busy_count, buffers`listeners, buffers`released, buffers`counts,
        buffers`watchers, buffers`parent_buffer
      ensures Valid() && s.pending == null && !s.newly_attached
      ensures s.image == if old(s.newly_attached) then created else old(s.image)
      ensures forall r <- refs :: (
        r.buffer == if old(s.newly_attached) && created && r == Holder(s, old(s.pending)) then
          old(s.pending) else old(r.buffer))
      ensures old(s.newly_attached) && created ==>
        var b := old(s.pending);
        var ref := Holder(s, b);
        b.Held(ref, old(ref.buffer == b), old(b.listeners), old(b.counts), old(b.released))
    {
      AttachNew(s, created);
      ClearPending(s);
    }

    method Forget(s: NestedSurface)
      requires Valid() && s in surfaces && s.pending == null && s.buffer_ref.buffer == null
      modifies this`refs, this`surfaces
      ensures Valid() && surfaces == old(surfaces) - {s} && refs == old(refs) - {s.buffer_ref}
    {
      refs := refs - {s.buffer_ref};
      surfaces := surfaces - {s};
    }

    /** A surface with no pending buffer is destroyed. */
    method DestroySurface(s: NestedSurface)
      requires Valid() && s in surfaces && s.pending == null
      modifies this`refs, this`surfaces, s.buffer_ref`buffer
      modifies Just(s.buffer_ref.buffer)`busy_count,
        Just(s.buffer_ref.buffer)`listeners, Just(s.buffer_ref.buffer)`released, Just(s.buffer_ref.buffer)`counts
      ensures Valid() && surfaces == old(surfaces) - {s} && refs == old(refs) - {s.buffer_ref}
      ensures old(s.buffer_ref.buffer) != null ==>
        var was := old(s.buffer_ref.buffer);
        was.Lost(s.buffer_ref, old(was.listeners), old(was.counts), old(was.released))
    {
      if blit {
        Reference(s.buffer_ref, null);
      }
      Forget(s);
    }
  }
}
