/**
 The event handlers themselves: linked event nodes filled in and inserted one
 tracepoint at a time (clients/traceinfo.c).
 */
module TraceReporter {
  import opened TraceInfo
  import opened TraceTimes

  method CountIndentation(message: string) returns (level: nat)
    ensures level == Indentation(message)
  {
    level := 0;
    while level < |message| && IsSpace(message[level])
      invariant level <= |message|
      invariant forall i | 0 <= i < level :: IsSpace(message[i])
    {
      level := level + 1;
    }
    IndentationIff(message, level);
  }

  /** A node; sub-events are kept newest first, as list insertion leaves them. */
  class TraceEvent {
    var message: string
    var time: int
    var level: int
    var parent: TraceEvent?
    var subevents: seq<TraceEvent>
    ghost const depth: nat

    constructor (ghost depth: nat)
      ensures parent == null && subevents == [] && level == 0 && message == "" && time == 0 && this.depth == depth
    {
      message, time, level, parent, subevents := "", 0, 0, null, [];
      this.depth := depth;
    }

    method Fill(message: string, time: int, level: int)
      modifies this`message, this`time, this`level
      ensures this.message == message && this.time == time && this.level == level
    {
      this.message := message;
      this.level := level;
      this.time := time;
    }
  }

  // ------------------------------------------- what the linked nodes represent

  /** The fields of a node at some point of the run. */
  datatype Fields = Fields(event: Event, level: int, parent: TraceEvent?, subevents: seq<TraceEvent>)

  type Heap = map<TraceEvent, Fields>

  type Built = map<TraceEvent, Tree>

  ghost predicate StandsAt(built: Built, nodes: seq<TraceEvent>, forest: Forest, i: nat) {
    i < |nodes| == |forest| && nodes[i] in built && built[nodes[i]] == forest[|forest| - 1 - i]
  }

  /** The nodes, newest first, stand for the trees of the forest, oldest first. */
  ghost predicate Stands(built: Built, nodes: seq<TraceEvent>, forest: Forest) {
    && |nodes| == |forest|
    && forall i: nat {:trigger StandsAt(built, nodes, forest, i)} | i < |nodes| :: StandsAt(built, nodes, forest, i)
  }

  lemma StandsKept(b: Built, b': Built, nodes: seq<TraceEvent>, forest: Forest)
    requires Stands(b, nodes, forest)
    requires forall n | n in b :: n in b' && b'[n] == b[n]
    ensures Stands(b', nodes, forest)
  {
    forall i: nat | i < |nodes| ensures StandsAt(b', nodes, forest, i) {
      assert StandsAt(b, nodes, forest, i);
    }
  }

  lemma StandsInsert(b: Built, nodes: seq<TraceEvent>, forest: Forest, n: TraceEvent, t: Tree)
    requires Stands(b, nodes, forest) && n !in b
    ensures Stands(b[n := t], [n] + nodes, forest + [t])
  {
    forall i: nat {:trigger StandsAt(b[n := t], [n] + nodes, forest + [t], i)} | i <= |nodes|
      ensures StandsAt(b[n := t], [n] + nodes, forest + [t], i)
    {
      assert i > 0 ==> StandsAt(b, nodes, forest, i - 1);
    }
  }

  /** A finished node stands for its tree and hangs below some other node. */
  ghost predicate Finished(h: Heap, built: Built, n: TraceEvent) {
    && n in built && n in h
    && h[n].event == built[n].event && h[n].level == built[n].event.Level()
    && Stands(built, h[n].subevents, built[n].children)
    && h[n].parent != null && h[n].parent in h && h[n].parent.depth < n.depth
  }

  /** An open parent holds its frame, plus the next open parent as newest child. */
  ghost predicate Opened(h: Heap, built: Built, pending: seq<TraceEvent>, frames: seq<Forest>, i: nat) {
    && i < |pending| == |frames|
    && pending[i] in h && pending[i] !in built
    && var f := h[pending[i]];
    && f.event == BLANK && f.level == -1 && pending[i].depth == i
    && f.parent == (if i == 0 then null else pending[i - 1])
    && if i == |pending| - 1 then Stands(built, f.subevents, frames[i])
       else f.subevents != [] && f.subevents[0] == pending[i + 1] && Stands(built, f.subevents[1..], frames[i])
  }

  /** The nodes represent exactly the forest under construction. */
  ghost predicate Represents(h: Heap, built: Built, pending: seq<TraceEvent>, frames: seq<Forest>) {
    && |pending| == |frames|
    && h.Keys == built.Keys + (set p | p in pending)
    && (forall n {:trigger Finished(h, built, n)} | n in built :: Finished(h, built, n))
    && (forall i: nat {:trigger Opened(h, built, pending, frames, i)} | i < |pending| ::
         Opened(h, built, pending, frames, i))
  }

  /** The implicit root alone has no parent, and the open parents alone have level -1. */
  lemma OnlyRootIsTop(h: Heap, built: Built, pending: seq<TraceEvent>, frames: seq<Forest>, n: TraceEvent)
    requires Represents(h, built, pending, frames) && n in h
    ensures h[n].parent != null ==> h[n].parent in h && h[n].parent.depth < n.depth
    ensures h[n].parent == null <==> pending != [] && n == pending[0]
    ensures h[n].level == -1 <==> n in pending
  {
    if n in built {
      assert Finished(h, built, n);
      forall i: nat | i < |pending| ensures pending[i] != n {
        assert Opened(h, built, pending, frames, i);
      }
    } else {
      var i: nat :| i < |pending| && pending[i] == n;
      assert Opened(h, built, pending, frames, i);
      if i > 0 {
        assert Opened(h, built, pending, frames, i - 1) && Opened(h, built, pending, frames, 0);
      }
    }
  }

  lemma AllFinishedKept(h: Heap, built: Built, h': Heap, n: TraceEvent, t: Tree)
    requires n !in built && h.Keys <= h'.Keys
    requires forall m {:trigger Finished(h, built, m)} | m in built :: Finished(h, built, m) && h'[m] == h[m]
    ensures forall m {:trigger Finished(h', built[n := t], m)} | m in built :: Finished(h', built[n := t], m)
  {
    forall m | m in built ensures Finished(h', built[n := t], m) {
      assert Finished(h, built, m);
      StandsKept(built, built[n := t], h[m].subevents, built[m].children);
    }
  }

  /** An open parent above the innermost one in both, that keeps its fields. */
  lemma OpenedKept(h: Heap, built: Built, pending: seq<TraceEvent>, frames: seq<Forest>, h': Heap, n: TraceEvent,
                   t: Tree, pending': seq<TraceEvent>, frames': seq<Forest>, i: nat)
    requires Opened(h, built, pending, frames, i) && i < |pending| - 1 && i < |pending'| - 1
    requires |frames'| == |pending'| && frames'[i] == frames[i]
    requires pending'[..i + 2] == pending[..i + 2]
    requires pending[i] in h' && h'[pending[i]] == h[pending[i]] && n !in built && n != pending[i]
    ensures Opened(h', built[n := t], pending', frames', i)
  {
    assert forall j | 0 <= j < i + 2 :: pending'[j] == pending'[..i + 2][j] == pending[..i + 2][j] == pending[j];
    StandsKept(built, built[n := t], h[pending[i]].subevents[1..], frames[i]);
  }

  /** Same indentation: a new node joins the siblings of the last event. */
  lemma JoinRepresents(h: Heap, built: Built, pending: seq<TraceEvent>, frames: seq<Forest>, e: Event, n: TraceEvent)
    requires Represents(h, built, pending, frames) && pending != [] && n !in h && n.depth == |pending|
    ensures
      var p, leaf := Last(pending), Node(e, []);
      Represents(h[p := h[p].(subevents := [n] + h[p].subevents)][n := Fields(e, e.Level(), p, [])],
                 built[n := leaf], pending, Front(frames) + [Last(frames) + [leaf]])
  {
    var k, p, leaf := |pending| - 1, Last(pending), Node(e, []);
    var h' := h[p := h[p].(subevents := [n] + h[p].subevents)][n := Fields(e, e.Level(), p, [])];
    var built', frames' := built[n := leaf], Front(frames) + [Last(frames) + [leaf]];
    assert Opened(h, built, pending, frames, k);
    assert n !in built && p !in built;
    AllFinishedKept(h, built, h', n, leaf);
    assert Finished(h', built', n);
    forall i: nat | i < |pending| ensures Opened(h', built', pending, frames', i) {
      assert Opened(h, built, pending, frames, i);
      if i == k {
        StandsInsert(built, h[p].subevents, frames[k], n, leaf);
      } else {
        assert pending[i] != p;
        OpenedKept(h, built, pending, frames, h', n, leaf, pending, frames', i);
      }
    }
  }

  /** Less indentation: the innermost open parent is finished. */
  lemma DropRepresents(h: Heap, built: Built, pending: seq<TraceEvent>, frames: seq<Forest>, e: Event)
    requires Represents(h, built, pending, frames) && |pending| >= 2
    ensures
      var n, t, rest := Last(pending), Node(e, Last(frames)), Front(frames);
      Represents(h[n := h[n].(event := e, level := e.Level())], built[n := t],
                 Front(pending), Front(rest) + [Last(rest) + [t]])
  {
    var k, n, t, rest := |pending| - 1, Last(pending), Node(e, Last(frames)), Front(frames);
    var h' := h[n := h[n].(event := e, level := e.Level())];
    var built', pending', frames' := built[n := t], Front(pending), Front(rest) + [Last(rest) + [t]];
    assert Opened(h, built, pending, frames, k) && Opened(h, built, pending, frames, k - 1);
    StandsKept(built, built', h[n].subevents, frames[k]);
    AllFinishedKept(h, built, h', n, t);
    assert Finished(h', built', n);
    forall i: nat | i < |pending'| ensures Opened(h', built', pending', frames', i) {
      assert Opened(h, built, pending, frames, i);
      if i == k - 1 {
        var subs := h[pending[i]].subevents;
        StandsInsert(built, subs[1..], frames[i], n, t);
        assert subs == [n] + subs[1..];
      } else {
        OpenedKept(h, built, pending, frames, h', n, t, pending', frames', i);
      }
    }
    assert h'.Keys == built'.Keys + (set p | p in pending');
  }

  ghost function Innermost(pending: seq<TraceEvent>): TraceEvent? {
    if pending == [] then null else Last(pending)
  }

  /** The heap after p became the newest sub-event of the innermost open parent. */
  ghost function Linked(h: Heap, pending: seq<TraceEvent>, p: TraceEvent): Heap
    requires pending != [] ==> Last(pending) in h
  {
    if pending == [] then h
    else h[Last(pending) := h[Last(pending)].(subevents := [p] + h[Last(pending)].subevents)]
  }

  /** ... and after both new nodes got their fields. */
  ghost function Risen(h: Heap, pending: seq<TraceEvent>, e: Event, n: TraceEvent, p: TraceEvent): (r: Heap)
    requires pending != [] ==> Last(pending) in h
    ensures r.Keys == h.Keys + {n, p}
  {
    Linked(h, pending, p)[n := Fields(e, e.Level(), p, [])][p := Fields(BLANK, -1, Innermost(pending), [n])]
  }

  /** More indentation, or the first event: the new node n opens a parent p. */
  lemma RiseRepresents(h: Heap, built: Built, pending: seq<TraceEvent>, frames: seq<Forest>, e: Event,
                       n: TraceEvent, p: TraceEvent)
    requires Represents(h, built, pending, frames)
    requires pending != [] ==> Last(pending) in h
    requires n !in h && p !in h && n != p && n.depth == |pending| + 1 && p.depth == |pending|
    ensures
      Represents(Risen(h, pending, e, n, p), built[n := Node(e, [])], pending + [p], frames + [[Node(e, [])]])
  {
    var h' := Risen(h, pending, e, n, p);
    var built', pending', frames' := built[n := Node(e, [])], pending + [p], frames + [[Node(e, [])]];
    var k := |pending| - 1;
    if pending != [] {
      assert Opened(h, built, pending, frames, k);
    }
    AllFinishedKept(h, built, h', n, Node(e, []));
    assert Finished(h', built', n);
    forall i: nat | i < |pending'| ensures Opened(h', built', pending', frames', i) {
      if i < k {
        assert Opened(h, built, pending, frames, i);
        assert pending[i] != pending[k];
        OpenedKept(h, built, pending, frames, h', n, Node(e, []), pending', frames', i);
      } else if i == k {
        var subs := h[pending[k]].subevents;
        assert ([p] + subs)[1..] == subs;
        StandsKept(built, built', subs, frames[i]);
      } else {
        StandsInsert(built, [], [], n, Node(e, []));
        assert [] + [Node(e, [])] == [Node(e, [])] && [n] + [] == [n];
      }
    }
    assert h'.Keys == built'.Keys + (set p | p in pending');
  }

  // ---------------------------------------------- what is printed of the nodes

  ghost predicate ReadAt(h: Heap, b: Built, n: TraceEvent) {
    && n in b && n in h
    && h[n].event == b[n].event && Stands(b, h[n].subevents, b[n].children)
  }

  /** The trees can be read off the nodes. */
  ghost predicate Readable(h: Heap, b: Built) {
    forall n {:trigger ReadAt(h, b, n)} | n in b :: ReadAt(h, b, n)
  }

  /** What remains of Opened while parents are closed from the innermost on. */
  ghost predicate StillOpen(h: Heap, b: Built, pending: seq<TraceEvent>, frames: seq<Forest>, i: nat) {
    && i < |pending| == |frames|
    && pending[i] in h && pending[i] !in b && h[pending[i]].event == BLANK && pending[i].depth == i
    && var subs := h[pending[i]].subevents;
       if i == |pending| - 1 then Stands(b, subs, frames[i])
       else subs != [] && subs[0] == pending[i + 1] && Stands(b, subs[1..], frames[i])
  }

  ghost predicate AllStillOpen(h: Heap, b: Built, pending: seq<TraceEvent>, frames: seq<Forest>) {
    && |pending| == |frames|
    && forall i: nat {:trigger StillOpen(h, b, pending, frames, i)} | i < |pending| ::
         StillOpen(h, b, pending, frames, i)
  }

  lemma ReadableGrows(h: Heap, b: Built, n: TraceEvent, t: Tree)
    requires Readable(h, b) && n in h && n !in b && h[n].event == t.event && Stands(b, h[n].subevents, t.children)
    ensures Readable(h, b[n := t])
  {
    var b' := b[n := t];
    forall m | m in b' ensures ReadAt(h, b', m) {
      if m == n {
        StandsKept(b, b', h[n].subevents, t.children);
      } else {
        assert ReadAt(h, b, m);
        StandsKept(b, b', h[m].subevents, b[m].children);
      }
    }
  }

  /** The innermost open parent is closed as it is. */
  lemma CloseOne(h: Heap, b: Built, pending: seq<TraceEvent>, frames: seq<Forest>)
    requires Readable(h, b) && AllStillOpen(h, b, pending, frames) && |pending| >= 2
    ensures var t, rest := Node(BLANK, Last(frames)), Front(frames);
      && Readable(h, b[Last(pending) := t])
      && AllStillOpen(h, b[Last(pending) := t], Front(pending), Front(rest) + [Last(rest) + [t]])
  {
    var k, n, t, rest := |pending| - 1, Last(pending), Node(BLANK, Last(frames)), Front(frames);
    var b', pending', frames' := b[n := t], Front(pending), Front(rest) + [Last(rest) + [t]];
    assert StillOpen(h, b, pending, frames, k);
    ReadableGrows(h, b, n, t);
    forall i: nat | i < |pending'| ensures StillOpen(h, b', pending', frames', i) {
      assert StillOpen(h, b, pending, frames, i);
      var subs := h[pending[i]].subevents;
      if i == k - 1 {
        StandsInsert(b, subs[1..], frames[i], n, t);
        assert subs == [n] + subs[1..];
      } else {
        StandsKept(b, b', subs[1..], frames[i]);
      }
    }
  }

  lemma {:induction false} CloseAll(h: Heap, b: Built, pending: seq<TraceEvent>, frames: seq<Forest>)
    returns (b': Built)
    requires Readable(h, b) && AllStillOpen(h, b, pending, frames) && pending != []
    ensures Readable(h, b') && pending[0] in h && Stands(b', h[pending[0]].subevents, Closed(frames))
    decreases |pending|
  {
    if |pending| == 1 {
      assert StillOpen(h, b, pending, frames, 0);
      b' := b;
    } else {
      var t, rest := Node(BLANK, Last(frames)), Front(frames);
      CloseOne(h, b, pending, frames);
      b' := CloseAll(h, b[Last(pending) := t], Front(pending), Front(rest) + [Last(rest) + [t]]);
    }
  }

  /** So the nodes below the root stand for the forest with all parents closed. */
  lemma RepresentsClosed(h: Heap, built: Built, pending: seq<TraceEvent>, frames: seq<Forest>) returns (b: Built)
    requires Represents(h, built, pending, frames) && pending != []
    ensures Readable(h, b) && pending[0] in h && Stands(b, h[pending[0]].subevents, Closed(frames))
  {
    forall n | n in built ensures ReadAt(h, built, n) {
      assert Finished(h, built, n);
    }
    forall i: nat | i < |pending| ensures StillOpen(h, built, pending, frames, i) {
      assert Opened(h, built, pending, frames, i);
    }
    b := CloseAll(h, built, pending, frames);
  }

  // ------------------------------------------------------------------ handlers

  class Reporter {
    var firstEvent: TraceEvent?
    var lastEvent: TraceEvent?

    ghost var log: seq<Event>
    // the forests below the open parents, outermost first, and those parents
    ghost var frames: seq<Forest>
    ghost var pending: seq<TraceEvent>
    // the tree each finished node stands for, and the fields of all nodes
    ghost var built: Built
    ghost var heap: Heap

    ghost predicate Ends()
      reads this, heap.Keys
    {
      if log == [] then firstEvent == null && lastEvent == null
      else
        && firstEvent != null && firstEvent in built && built[firstEvent].event.time == log[0].time
        && lastEvent != null && lastEvent in heap && lastEvent.level == Last(log).Level()
        && pending != [] && Last(pending) in heap && lastEvent.parent == Last(pending)
    }

    static ghost predicate MirroredIn(h: Heap)
      reads h.Keys
    {
      forall n {:trigger n.subevents} | n in h ::
        h[n] == Fields(Event(n.message, n.time), n.level, n.parent, n.subevents)
    }

    ghost predicate Mirrored()
      reads this, heap.Keys
    {
      MirroredIn(heap)
    }

    ghost predicate Valid()
      reads this, heap.Keys
    {
      && Mirrored()
      && Run(log) == Open(frames)
      && Represents(heap, built, pending, frames)
      && Ends()
    }

    /** The root was filled in by an event; the nodes are linked as before. */
    ghost predicate Ruined()
      reads this, heap.Keys
    {
      && Run(log).Overwritten? && Represents(heap, built, pending, frames)
      && firstEvent != null && firstEvent in heap
      && LinksKept()
      && pending != [] && pending[0] in heap && pending[0].level >= 0
    }

    ghost predicate LinksKept()
      reads this`heap, heap.Keys`parent
    {
      forall n {:trigger n.parent} | n in heap :: n.parent == heap[n].parent
    }

    lemma ValidLinks()
      requires Valid() && log != []
      ensures LinksKept() && firstEvent != null && firstEvent in heap && firstEvent.time == log[0].time
    {
      forall n | n in heap ensures n.parent == heap[n].parent {
        Mirror(n);
      }
      assert Finished(heap, built, firstEvent);
      Mirror(firstEvent);
    }

    constructor ()
      ensures Valid() && log == [] && heap == map[]
    {
      firstEvent, lastEvent := null, null;
      log, frames, pending, built, heap := [], [], [], map[], map[];
    }

    lemma Mirror(n: TraceEvent)
      requires Mirrored() && n in heap
      ensures heap[n] == Fields(Event(n.message, n.time), n.level, n.parent, n.subevents)
    {
      var subs := n.subevents;
    }

    /** What Ends says of the first event. */
    ghost predicate Begins()
      reads this
    {
      if log == [] then firstEvent == null
      else firstEvent != null && firstEvent in built && built[firstEvent].event.time == log[0].time
    }

    method Remember(event: TraceEvent)
      modifies this`lastEvent, this`firstEvent
      ensures lastEvent == event && firstEvent == if old(firstEvent) == null then event else old(firstEvent)
    {
      lastEvent := event;
      if firstEvent == null {
        firstEvent := event;
      }
    }

    /** The forest and the heap after an event. */
    ghost method Note(event: TraceEvent, e: Event, frames': seq<Forest>, pending': seq<TraceEvent>,
                      heap': Heap, tree: Tree)
      requires lastEvent == event && event !in built && tree.event == e
      requires if log == [] then firstEvent == event else Begins()
      requires Run(log + [e]) == Open(frames')
      requires Represents(heap', built[event := tree], pending', frames')
      requires MirroredIn(heap')
      requires event in heap' && event.level == e.Level()
      requires pending' != [] && Last(pending') in heap' && event.parent == Last(pending')
      modifies this`log, this`frames, this`pending, this`heap, this`built
      ensures Valid() && log == old(log) + [e] && heap == heap'
    {
      Take(log + [e], frames', pending', heap', built[event := tree]);
    }

    ghost method Take(log': seq<Event>, frames': seq<Forest>, pending': seq<TraceEvent>, heap': Heap, built': Built)
      modifies this`log, this`frames, this`pending, this`heap, this`built
      ensures log == log' && frames == frames' && pending == pending' && heap == heap' && built == built'
    {
      log, frames, pending, heap, built := log', frames', pending', heap', built';
    }

    /** Takes over the event just filled in, and the forest and heap after it. */
    method Record(event: TraceEvent, ghost e: Event, ghost frames': seq<Forest>, ghost pending': seq<TraceEvent>,
                  ghost heap': Heap, ghost tree: Tree)
      requires Begins() && event !in built && tree.event == e
      requires Run(log + [e]) == Open(frames')
      requires Represents(heap', built[event := tree], pending', frames')
      requires MirroredIn(heap')
      requires event in heap' && event.level == e.Level()
      requires pending' != [] && Last(pending') in heap' && event.parent == Last(pending')
      modifies this
      ensures Valid() && log == old(log) + [e] && heap == heap'
    {
      Remember(event);
      Note(event, e, frames', pending', heap', tree);
    }

    /** Takes over a new event and the parent it opens. */
    method RecordRise(event: TraceEvent, parent: TraceEvent, ghost e: Event, ghost frames': seq<Forest>)
      requires Begins() && Represents(heap, built, pending, frames) && (pending != [] ==> Last(pending) in heap)
      requires Run(log + [e]) == Open(frames') && frames' == frames + [[Node(e, [])]]
      requires event !in heap && parent !in heap && event != parent
      requires event.depth == |pending| + 1 && parent.depth == |pending|
      requires MirroredIn(Linked(heap, pending, parent))
      requires event.message == e.message && event.time == e.time && event.level == e.Level()
      requires event.parent == parent && event.subevents == []
      requires parent.level == -1 && parent.parent == Innermost(pending) && parent.subevents == [event]
      requires parent.message == "" && parent.time == 0
      modifies this
      ensures Valid() && log == old(log) + [e] && heap.Keys == old(heap.Keys) + {event, parent}
    {
      RiseRepresents(heap, built, pending, frames, e, event, parent);
      Record(event, e, frames', pending + [parent], Risen(heap, pending, e, event, parent), Node(e, []));
    }

    /** Allocates an event and the parent it opens, and links both in. */
    static method Grow(above: TraceEvent?, ghost depth: nat, message: string, time: int)
      returns (event: TraceEvent, parent: TraceEvent)
      modifies if above != null then {above} else {}
      ensures fresh(event) && fresh(parent) && event != parent && parent.depth == depth && event.depth == depth + 1
      ensures event.message == message && event.time == time && event.level == Indentation(message)
      ensures event.parent == parent && event.subevents == []
      ensures parent.level == -1 && parent.parent == above && parent.subevents == [event]
      ensures parent.message == "" && parent.time == 0
      ensures above != null ==>
                && above.subevents == [parent] + old(above.subevents) && above.message == old(above.message)
                && above.time == old(above.time) && above.level == old(above.level) && above.parent == old(above.parent)
    {
      event := new TraceEvent(depth + 1);
      parent := new TraceEvent(depth);
      parent.level := -1;
      event.parent := parent;
      parent.subevents := [event] + parent.subevents;
      if above != null {
        parent.parent := above;
        above.subevents := [parent] + above.subevents;
      }
      event.Fill(message, time, Indentation(message));
    }

    static method Attach(above: TraceEvent, ghost depth: nat, message: string, time: int) returns (event: TraceEvent)
      modifies above
      ensures fresh(event) && event.depth == depth
      ensures event.message == message && event.time == time && event.level == Indentation(message)
      ensures event.parent == above && event.subevents == []
      ensures && above.subevents == [event] + old(above.subevents) && above.message == old(above.message)
              && above.time == old(above.time) && above.level == old(above.level) && above.parent == old(above.parent)
    {
      event := new TraceEvent(depth);
      event.parent := above;
      event.parent.subevents := [event] + event.parent.subevents;
      event.Fill(message, time, Indentation(message));
    }

    method Rise(message: string, time: int)
      requires Valid()
      requires log == [] || Indentation(message) > Last(log).Level()
      requires Run(log + [Event(message, time)]).Open?
      modifies this, heap.Keys
      ensures Valid() && fresh(heap.Keys - old(heap.Keys))
      ensures log == old(log) + [Event(message, time)]
    {
      ghost var e := Event(message, time);
      ghost var frames' := RiseFrames(log, frames, e);
      var above := if lastEvent == null then null else lastEvent.parent;
      var event, parent := Grow(above, |pending|, message, time);
      RecordRise(event, parent, e, frames');
    }

    method Join(message: string, time: int)
      requires Valid()
      requires log != [] && Indentation(message) == Last(log).Level()
      modifies this, heap.Keys
      ensures Valid() && fresh(heap.Keys - old(heap.Keys))
      ensures log == old(log) + [Event(message, time)]
    {
      ghost var e := Event(message, time);
      ghost var frames' := JoinFrames(log, frames, e);
      var above := lastEvent.parent;
      var event := Attach(above, |pending|, message, time);
      JoinRepresents(heap, built, pending, frames, e, event);
      Record(event, e, frames', pending,
             heap[above := heap[above].(subevents := [event] + heap[above].subevents)]
               [event := Fields(e, e.Level(), above, [])],
             Node(e, []));
    }

    /** The root, or else the innermost open parent, is filled in. */
    method Drop(message: string, time: int)
      requires Valid()
      requires log != [] && Indentation(message) < Last(log).Level()
      modifies this, heap.Keys
      ensures Valid() || Ruined()
      ensures heap.Keys == old(heap.Keys)
      ensures log == old(log) + [Event(message, time)]
    {
      ghost var e := Event(message, time);
      var event := lastEvent.parent;
      ValidLinks();
      Mirror(event);
      assert Opened(heap, built, pending, frames, |pending| - 1);
      event.Fill(message, time, Indentation(message));
      Remember(event);
      if Run(log + [e]).Open? {
        NoteDrop(event, e);
      } else {
        NoteOverwrite(event, e);
      }
    }

    ghost method NoteOverwrite(event: TraceEvent, e: Event)
      requires Represents(heap, built, pending, frames) && Run(log) == Open(frames) && LinksKept()
      requires pending != [] && event == Last(pending) && event in heap && event.level == e.Level()
      requires firstEvent != null && firstEvent in heap
      requires log != [] && Run(log + [e]).Overwritten?
      modifies this`log
      ensures Ruined() && log == old(log) + [e]
    {
      OverwriteFrames(log, frames, e);
      log := log + [e];
    }

    ghost method NoteDrop(event: TraceEvent, e: Event)
      requires Represents(heap, built, pending, frames) && Run(log) == Open(frames) && Begins()
      requires pending != [] && event == Last(pending) == lastEvent && event in heap
      requires log != [] && e.Level() < Last(log).Level() && Run(log + [e]).Open?
      requires MirroredIn(heap[event := heap[event].(event := e, level := e.Level())])
      requires event.level == e.Level()
      modifies this`log, this`frames, this`pending, this`heap, this`built
      ensures Valid() && log == old(log) + [e] && heap.Keys == old(heap.Keys)
    {
      var frames' := DropFrames(log, frames, e);
      DropRepresents(heap, built, pending, frames, e);
      assert Opened(heap, built, pending, frames, |pending| - 1) && Opened(heap, built, pending, frames, |pending| - 2);
      var subs := event.subevents;
      Note(event, e, frames', Front(pending), heap[event := heap[event].(event := e, level := e.Level())],
           Node(e, Last(frames)));
    }

    /** One tracepoint message. Below the indentation of the first message it overwrites
        the implicit root; the links that the next message would follow end there. */
    method Tracepoint(message: string, sec: nat, usec: nat)
      requires Valid()
      modifies this, heap.Keys
      ensures Valid() || Ruined()
      ensures fresh(heap.Keys - old(heap.Keys))
      ensures log == old(log) + [Event(message, sec * 1000000 + usec)]
    {
      var time := sec * 1000000 + usec;
      var level := CountIndentation(message);
      if lastEvent != null && level < lastEvent.level {
        Drop(message, time);
      } else if lastEvent == null || level > lastEvent.level {
        Rise(message, time);
      } else {
        Join(message, time);
      }
    }

    /** Children first, each measured from its predecessor. */
    method PrintEvent(ev: TraceEvent, prevTime: int, ghost b: Built) returns (rows: seq<Row>)
      requires Mirrored() && Readable(heap, b) && firstEvent != null && ev in b
      ensures rows == TreeRows(b[ev], prevTime, firstEvent.time)
      decreases b[ev], 1
    {
      assert ReadAt(heap, b, ev);
      Mirror(ev);
      var childPrev;
      rows, childPrev := PrintChildren(ev.subevents, prevTime, b, b[ev].children);
      rows := rows + [Row(ev.time - firstEvent.time, ev.time - prevTime, ev.time - childPrev, ev.message)];
    }

    /** The reverse walk over a sub-event list. */
    method PrintChildren(subevents: seq<TraceEvent>, prevTime: int, ghost b: Built, ghost forest: Forest)
      returns (rows: seq<Row>, childPrev: int)
      requires Mirrored() && Readable(heap, b) && firstEvent != null && Stands(b, subevents, forest)
      ensures rows == ForestRows(forest, prevTime, firstEvent.time) && childPrev == EndTime(forest, prevTime)
      decreases forest, 0
    {
      rows, childPrev := [], prevTime;
      var i := |subevents|;
      while i > 0
        invariant 0 <= i <= |subevents|
        invariant rows == ForestRows(forest[..|forest| - i], prevTime, firstEvent.time)
        invariant childPrev == EndTime(forest[..|forest| - i], prevTime)
      {
        i := i - 1;
        var child := subevents[i];
        assert StandsAt(b, subevents, forest, i) && ReadAt(heap, b, child);
        assert forest[..|forest| - i] == forest[..|forest| - i - 1] + [b[child]];
        Mirror(child);
        var childRows := PrintEvent(child, childPrev, b);
        rows := rows + childRows;
        childPrev := child.time;
      }
      assert forest[..|forest|] == forest;
    }

    /** From the first event up to the implicit root. */
    method Climb() returns (root: TraceEvent)
      requires Represents(heap, built, pending, frames) && LinksKept() && firstEvent != null && firstEvent in heap
      ensures pending != [] && root == pending[0]
    {
      root := firstEvent;
      while root.parent != null
        invariant root in heap
        decreases root.depth
      {
        OnlyRootIsTop(heap, built, pending, frames, root);
        root := root.parent;
      }
      OnlyRootIsTop(heap, built, pending, frames, root);
    }

    /** End of the log: climb to the implicit root, which must be untouched, and print
        what is below it. Parents still open are printed as they are. */
    method TraceEnd() returns (ok: bool, rows: seq<Row>)
      requires Valid() || Ruined()
      ensures ok <==> Run(log).Open?
      ensures ok && log == [] ==> rows == []
      ensures ok && log != [] ==>
        && frames == Run(log).frames != [] && Depth(log) >= 0
        && PostOrder(Closed(frames)) == log + Blanks(Depth(log))
        && rows == ForestRows(Closed(frames), log[0].time, log[0].time)
    {
      ok, rows := true, [];
      if firstEvent == null {
        return;
      }
      if Valid() {
        ValidLinks();
      }
      var ev := Climb();
      if Valid() {
        Mirror(ev);
        OnlyRootIsTop(heap, built, pending, frames, ev);
      }
      if ev.level != -1 {
        return false, [];
      }
      ghost var b := RepresentsClosed(heap, built, pending, frames);
      ClosedListsLog(log);
      ValidLinks();
      var last;
      rows, last := PrintChildren(ev.subevents, firstEvent.time, b, Closed(frames));
    }
  }

  lemma JoinFrames(log: seq<Event>, frames: seq<Forest>, e: Event) returns (frames': seq<Forest>)
    requires log != [] && Run(log) == Open(frames)
    requires e.Level() == Last(log).Level()
    ensures Run(log + [e]) == Open(frames') && frames != [] && frames' == Front(frames) + [Last(frames) + [Node(e, [])]]
  {
    StepAppend(NOTHING, log, e);
    LastEventOnTop(log);
    frames' := Run(log + [e]).frames;
  }

  lemma DropFrames(log: seq<Event>, frames: seq<Forest>, e: Event) returns (frames': seq<Forest>)
    requires log != [] && Run(log) == Open(frames) && Run(log + [e]).Open?
    requires e.Level() < Last(log).Level()
    ensures Run(log + [e]) == Open(frames') && |frames| >= 2
    ensures frames' == Front(Front(frames)) + [Last(Front(frames)) + [Node(e, Last(frames))]]
  {
    StepAppend(NOTHING, log, e);
    LastEventOnTop(log);
    frames' := Run(log + [e]).frames;
  }

  lemma OverwriteFrames(log: seq<Event>, frames: seq<Forest>, e: Event)
    requires log != [] && Run(log) == Open(frames) && Run(log + [e]).Overwritten?
    ensures |frames| == 1
  {
    StepAppend(NOTHING, log, e);
    LastEventOnTop(log);
  }

  lemma RiseFrames(log: seq<Event>, frames: seq<Forest>, e: Event) returns (frames': seq<Forest>)
    requires Run(log) == Open(frames) && Run(log + [e]).Open?
    requires log != [] ==> e.Level() > Last(log).Level()
    ensures Run(log + [e]) == Open(frames') && frames' == frames + [[Node(e, [])]]
    ensures log == [] <==> frames == []
  {
    frames' := Run(log + [e]).frames;
    StepAppend(NOTHING, log, e);
    if log != [] {
      LastEventOnTop(log);
    }
  }
}
