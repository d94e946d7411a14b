/**
 Reconstruction of an event tree from an indentation-coded log, and the time
 accounting printed for it (clients/traceinfo.c).

 A log lists every event after its children. The handler must therefore open a
 parent before it knows anything about it, and fill it in later.
 */
module TraceInfo {

  // ---------------------------------------------------------------- messages

  /** isspace() in the C locale. */
  predicate IsSpace(c: char) {
    c == ' ' || '\t' <= c <= '\r'
  }

  /** The number of leading white-space characters. */
  function Indentation(message: string): nat {
    if message == "" || !IsSpace(message[0]) then 0 else 1 + Indentation(message[1..])
  }

  lemma {:induction false} IndentationIff(message: string, n: nat)
    ensures n == Indentation(message) <==>
            && n <= |message|
            && (forall i | 0 <= i < n :: IsSpace(message[i]))
            && (n < |message| ==> !IsSpace(message[n]))
  {
    if message != "" && IsSpace(message[0]) && n > 0 {
      IndentationIff(message[1..], n - 1);
      assert forall i | 1 <= i < |message| :: message[i] == message[1..][i - 1];
    }
  }

  // ------------------------------------------------------- forests and frames

  /** A log entry; the time is in microseconds. */
  datatype Event = Event(message: string, time: int) {
    function Level(): nat {
      Indentation(message)
    }
  }

  datatype Tree = Node(event: Event, children: seq<Tree>)

  type Forest = seq<Tree>

  function Last<T>(s: seq<T>): T
    requires s != []
  {
    s[|s| - 1]
  }

  function Front<T>(s: seq<T>): seq<T>
    requires s != []
  {
    s[..|s| - 1]
  }

  /** The log of a forest: every event directly after its children. */
  function PostOrder(forest: Forest): seq<Event> {
    if forest == [] then []
    else PostOrder(Front(forest)) + (PostOrder(Last(forest).children) + [Last(forest).event])
  }

  /** What the handlers have built so far: one list of finished trees for every
      parent that is still open, outermost (the implicit root) first. Overwritten
      stands for a root that was filled in by an event. */
  datatype Progress = Open(frames: seq<Forest>) | Overwritten {
    predicate Valid() {
      Open? ==> forall i | 0 <= i < |frames| :: frames[i] != []
    }
  }

  const NOTHING := Open([])

  /** One tracepoint. */
  function Step(s: Progress, e: Event): (r: Progress)
    requires s.Valid()
    ensures r.Valid()
  {
    if s.Overwritten? then Overwritten
    else if s.frames == [] then Open([[Node(e, [])]])
    else
      var top := Last(s.frames);
      var level := Last(top).event.Level();
      if e.Level() == level then Open(Front(s.frames) + [top + [Node(e, [])]])
      else if e.Level() > level then Open(s.frames + [[Node(e, [])]])
      else if |s.frames| == 1 then Overwritten
      else
        var rest := Front(s.frames);
        Open(Front(rest) + [Last(rest) + [Node(e, top)]])
  }

  function Continue(s: Progress, log: seq<Event>): (r: Progress)
    requires s.Valid()
    ensures r.Valid()
  {
    if log == [] then s else Step(Continue(s, Front(log)), Last(log))
  }

  function Run(log: seq<Event>): (r: Progress)
    ensures r.Valid()
  {
    Continue(NOTHING, log)
  }

  lemma {:induction false} ContinueAppend(s: Progress, a: seq<Event>, b: seq<Event>)
    requires s.Valid()
    ensures Continue(s, a + b) == Continue(Continue(s, a), b)
  {
    if b == [] {
      assert a + b == a;
    } else {
      assert Front(a + b) == a + Front(b) && Last(a + b) == Last(b);
      ContinueAppend(s, a, Front(b));
    }
  }

  lemma StepAppend(s: Progress, log: seq<Event>, e: Event)
    requires s.Valid()
    ensures Continue(s, log + [e]) == Step(Continue(s, log), e)
  {
    assert Front(log + [e]) == log;
  }

  // ------------------------------------- nothing is lost, order is preserved

  function Flatten(frames: seq<Forest>): seq<Event> {
    if frames == [] then [] else Flatten(Front(frames)) + PostOrder(Last(frames))
  }

  lemma FlattenSnoc(frames: seq<Forest>, f: Forest)
    ensures Flatten(frames + [f]) == Flatten(frames) + PostOrder(f)
  {
    assert Front(frames + [f]) == frames;
  }

  lemma PostOrderSnoc(f: Forest, t: Tree)
    ensures PostOrder(f + [t]) == PostOrder(f) + PostOrder(t.children) + [t.event]
  {
    assert Front(f + [t]) == f;
    assert PostOrder(f) + (PostOrder(t.children) + [t.event]) == PostOrder(f) + PostOrder(t.children) + [t.event];
  }

  lemma StepAddsEvent(s: Progress, e: Event)
    requires s.Valid() && s.Open? && Step(s, e).Open?
    ensures Flatten(Step(s, e).frames) == Flatten(s.frames) + [e]
  {
    var leaf := Node(e, []);
    assert PostOrder([leaf]) == [e] by { PostOrderSnoc([], leaf); }
    if s.frames == [] {
      FlattenSnoc([], [leaf]);
    } else {
      var top := Last(s.frames);
      var level := Last(top).event.Level();
      var below := Front(s.frames);
      if e.Level() == level {
        FlattenSnoc(below, top + [leaf]);
        PostOrderSnoc(top, leaf);
        assert PostOrder(top) + [] + [e] == PostOrder(top) + [e];
        assert Flatten(below) + (PostOrder(top) + [e]) == Flatten(s.frames) + [e];
      } else if e.Level() > level {
        FlattenSnoc(s.frames, [leaf]);
      } else {
        DropFlattens(s.frames, e);
      }
    }
  }

  /** Whatever the indentation does, as long as the root is not overwritten the
      partial trees hold every event once, in arrival order. */
  lemma {:induction false} ArrivalOrder(log: seq<Event>)
    requires Run(log).Open?
    ensures Flatten(Run(log).frames) == log
  {
    if log != [] {
      ArrivalOrder(Front(log));
      StepAddsEvent(Run(Front(log)), Last(log));
      assert log == Front(log) + [Last(log)];
    }
  }

  /** A log that ends with only the implicit root open is the post-order listing
      of the forest below that root. */
  lemma RebuiltForestListsLog(log: seq<Event>, forest: Forest)
    requires Run(log) == Open([forest])
    ensures PostOrder(forest) == log
  {
    ArrivalOrder(log);
    FlattenSnoc([], forest);
    assert [] + [forest] == [forest];
  }

  // ------------------------------------------------- parents that are still open

  /** What a parent holds that no event has filled in. */
  const BLANK := Event("", 0)

  /** The forest below the root when the parents still open are taken as they are. */
  function Closed(frames: seq<Forest>): Forest
    requires frames != []
    decreases |frames|
  {
    if |frames| == 1 then frames[0]
    else
      var rest := Front(frames);
      Closed(Front(rest) + [Last(rest) + [Node(BLANK, Last(frames))]])
  }

  function Blanks(n: nat): seq<Event> {
    seq(n, i => BLANK)
  }

  lemma DropFlattens(frames: seq<Forest>, e: Event)
    requires |frames| >= 2
    ensures var rest := Front(frames);
      Flatten(Front(rest) + [Last(rest) + [Node(e, Last(frames))]]) == Flatten(frames) + [e]
  {
    var top, below := Last(frames), Front(frames);
    FlattenSnoc(Front(below), Last(below) + [Node(e, top)]);
    PostOrderSnoc(Last(below), Node(e, top));
    Regroup(Flatten(Front(below)), PostOrder(Last(below)), PostOrder(top), [e]);
  }

  lemma Regroup(a: seq<Event>, b: seq<Event>, c: seq<Event>, d: seq<Event>)
    ensures a + (b + c + d) == a + b + c + d
  {
  }

  lemma {:induction false} ClosedFlattens(frames: seq<Forest>)
    requires frames != []
    ensures PostOrder(Closed(frames)) == Flatten(frames) + Blanks(|frames| - 1)
    decreases |frames|
  {
    if |frames| == 1 {
      FlattenSnoc([], frames[0]);
      assert [] + [frames[0]] == frames;
    } else {
      var rest := Front(frames);
      DropFlattens(frames, BLANK);
      ClosedFlattens(Front(rest) + [Last(rest) + [Node(BLANK, Last(frames))]]);
      assert [BLANK] + Blanks(|frames| - 2) == Blanks(|frames| - 1);
    }
  }

  /** The forest printed at the end is the listing of the log, followed by one empty
      event for each parent that is still open below the root. */
  lemma ClosedListsLog(log: seq<Event>)
    requires log != [] && Run(log).Open?
    ensures Run(log).frames != [] && Depth(log) >= 0
    ensures PostOrder(Closed(Run(log).frames)) == log + Blanks(Depth(log))
  {
    ArrivalOrder(log);
    LastEventOnTop(log);
    ClosedFlattens(Run(log).frames);
  }

  // ------------------------------------------- when the root stays untouched

  /** Rises minus drops of the indentation over a log. */
  function Depth(log: seq<Event>): int {
    if |log| < 2 then 0
    else
      var a, b := log[|log| - 2].Level(), log[|log| - 1].Level();
      Depth(Front(log)) + (if b > a then 1 else if b < a then -1 else 0)
  }

  /** The deepest open frame ends with the event seen last. */
  lemma {:induction false} LastEventOnTop(log: seq<Event>)
    requires log != [] && Run(log).Open?
    ensures Run(log).frames != [] && Last(Last(Run(log).frames)).event == Last(log)
    ensures |Run(log).frames| == 1 + Depth(log)
  {
    var front := Front(log);
    if front != [] {
      assert Run(front).Open?;
      LastEventOnTop(front);
      assert Last(front) == log[|log| - 2];
    } else {
      assert Run(front) == NOTHING;
    }
  }

  lemma StepStaysOpenIff(log: seq<Event>)
    requires log != [] && Run(Front(log)).Open?
    ensures Run(log).Open? <==> Depth(log) >= 0
  {
    var front := Front(log);
    if front != [] {
      LastEventOnTop(front);
      assert Last(front) == log[|log| - 2];
    } else {
      assert Run(front) == NOTHING;
    }
  }

  predicate NeverBelowTop(log: seq<Event>) {
    forall n | 0 <= n <= |log| :: Depth(log[..n]) >= 0
  }

  lemma NeverBelowTopFront(log: seq<Event>)
    requires log != []
    ensures NeverBelowTop(log) <==> NeverBelowTop(Front(log)) && Depth(log) >= 0
  {
    assert log[..|log|] == log;
    assert forall n | 0 <= n < |log| :: log[..n] == Front(log)[..n];
  }

  /** The assertion in the end-of-trace handler (the topmost parent still has
      level -1) holds iff no prefix of the log has more drops than rises. */
  lemma {:induction false} RootUntouchedIff(log: seq<Event>)
    ensures Run(log).Open? <==> NeverBelowTop(log)
  {
    if log != [] {
      RootUntouchedIff(Front(log));
      NeverBelowTopFront(log);
      if Run(Front(log)).Open? {
        StepStaysOpenIff(log);
      }
    }
  }

  // ---------------------------------------------------------------- round trip

  /** Siblings share one indentation, children are indented more than their
      parent, and the first sibling of every list is a leaf. */
  predicate WellNested(forest: Forest) {
    (forall i {:trigger WellNested(forest[i].children)} | 0 <= i < |forest| ::
       && forest[i].event.Level() == forest[0].event.Level()
       && WellNested(forest[i].children)
       && (forest[i].children != [] ==> forest[i].children[0].event.Level() > forest[i].event.Level()))
    && (forest != [] ==> forest[0].children == [])
  }

  /** Indentations of the open parents' children, tracked on the log alone: a rise
      opens one level and a drop must return to the level directly beneath. */
  datatype Track = Levels(stack: seq<nat>) | Inconsistent

  function TrackStep(t: Track, level: nat): Track {
    if t.Inconsistent? then Inconsistent
    else if t.stack == [] || level > Last(t.stack) then Levels(t.stack + [level])
    else if level == Last(t.stack) then t
    else if |t.stack| >= 2 && level == t.stack[|t.stack| - 2] then Levels(Front(t.stack))
    else Inconsistent
  }

  function TrackFrom(t: Track, log: seq<Event>): Track {
    if log == [] then t else TrackStep(TrackFrom(t, Front(log)), Last(log).Level())
  }

  lemma {:induction false} TrackAppend(t: Track, a: seq<Event>, b: seq<Event>)
    ensures TrackFrom(t, a + b) == TrackFrom(TrackFrom(t, a), b)
  {
    if b == [] {
      assert a + b == a;
    } else {
      assert Front(a + b) == a + Front(b) && Last(a + b) == Last(b);
      TrackAppend(t, a, Front(b));
    }
  }

  /** The log starts and ends at the top level, and its drops match its rises. */
  predicate Consistent(log: seq<Event>) {
    var t := TrackFrom(Levels([]), log);
    t.Levels? && |t.stack| == 1
  }

  /** The tracked indentations describe the frames. */
  predicate Describes(stack: seq<nat>, frames: seq<Forest>) {
    && |stack| == |frames|
    && (forall i | 0 <= i < |frames| ::
          frames[i] != [] && WellNested(frames[i]) && frames[i][0].event.Level() == stack[i])
    && (forall i | 0 < i < |stack| :: stack[i - 1] < stack[i])
  }

  /** The listing of a sibling list adds exactly that list as a new frame. */
  predicate Replayed(s: Progress, t: Track, forest: Forest) {
    && forest != [] && s.Open? && s.Valid() && t.Levels?
    && Continue(s, PostOrder(forest)) == Open(s.frames + [forest])
    && TrackFrom(t, PostOrder(forest)) == Levels(t.stack + [forest[0].event.Level()])
  }

  /** Replaying the listing of a sibling list on top of an open parent adds exactly
      that list as a new frame. */
  lemma {:induction false} Replay(s: Progress, t: Track, forest: Forest)
    requires forest != [] && WellNested(forest)
    requires s.Open? && t.Levels? && Describes(t.stack, s.frames)
    requires s.frames != [] ==> Last(t.stack) < forest[0].event.Level()
    ensures Replayed(s, t, forest)
    decreases forest, 1
  {
    var front, tree := Front(forest), Last(forest);
    assert forest == front + [tree];
    if front == [] {
      ReplayParts(s, t, front, tree);
      ReplayFirst(s.frames, t.stack, tree);
    } else {
      WellNestedParts(front, tree);
      Replay(s, t, front);
      ReplayLast(s, t, front, tree, forest);
    }
  }

  lemma {:induction false} ReplayLast(s: Progress, t: Track, front: Forest, tree: Tree, forest: Forest)
    requires front != [] && forest == front + [tree] && WellNested(front) && WellNested(tree.children)
    requires front[0].event.Level() == tree.event.Level()
    requires tree.children != [] ==> tree.children[0].event.Level() > front[0].event.Level()
    requires s.Open? && t.Levels? && Describes(t.stack, s.frames)
    requires s.frames != [] ==> Last(t.stack) < front[0].event.Level()
    requires Replayed(s, t, front)
    ensures Replayed(s, t, forest)
    decreases forest, 0
  {
    var s1, t1 := Open(s.frames + [front]), Levels(t.stack + [front[0].event.Level()]);
    SiblingsShareLevel(front, front[0].event.Level());
    if tree.children != [] {
      DescribesSnoc(t.stack, s.frames, front);
      assert forest[|front|] == tree;
      Replay(s1, t1, tree.children);
      SiblingsShareLevel(tree.children, tree.children[0].event.Level());
    } else {
      assert PostOrder(tree.children) == [];
    }
    ReplaySibling(s.frames, t.stack, front, tree);
    ReplayParts(s, t, front, tree);
  }

  lemma WellNestedParts(front: Forest, tree: Tree)
    requires front != [] && WellNested(front + [tree])
    ensures WellNested(front) && (front + [tree])[0] == front[0]
    ensures WellNested(tree.children)
    ensures tree.event.Level() == front[0].event.Level()
    ensures tree.children != [] ==> tree.children[0].event.Level() > front[0].event.Level()
  {
    var forest := front + [tree];
    assert forest[0] == front[0] && forest[|front|] == tree;
    assert WellNested(forest[|front|].children);
    forall i | 0 <= i < |front|
      ensures front[i].event.Level() == front[0].event.Level() && WellNested(front[i].children)
      ensures front[i].children != [] ==> front[i].children[0].event.Level() > front[i].event.Level()
    {
      assert forest[i] == front[i];
      assert WellNested(forest[i].children);
    }
  }

  lemma ReplayFirst(frames: seq<Forest>, stack: seq<nat>, tree: Tree)
    requires WellNested([tree]) && Describes(stack, frames)
    requires frames != [] ==> Last(stack) < tree.event.Level()
    ensures tree.children == []
    ensures Step(Open(frames), tree.event) == Open(frames + [[tree]])
    ensures TrackStep(Levels(stack), tree.event.Level()) == Levels(stack + [tree.event.Level()])
  {
    if frames != [] {
      SiblingsShareLevel(Last(frames), Last(stack));
    }
    assert [tree][0].children == [];
    assert tree == Node(tree.event, []);
  }

  lemma ReplayParts(s: Progress, t: Track, front: Forest, tree: Tree)
    requires s.Valid()
    ensures Continue(s, PostOrder(front + [tree]))
         == Step(Continue(Continue(s, PostOrder(front)), PostOrder(tree.children)), tree.event)
    ensures TrackFrom(t, PostOrder(front + [tree]))
         == TrackStep(TrackFrom(TrackFrom(t, PostOrder(front)), PostOrder(tree.children)), tree.event.Level())
  {
    var listing := PostOrder(front) + PostOrder(tree.children);
    PostOrderSnoc(front, tree);
    StepAppend(s, listing, tree.event);
    assert Front(listing + [tree.event]) == listing;
    ContinueAppend(s, PostOrder(front), PostOrder(tree.children));
    TrackAppend(t, PostOrder(front), PostOrder(tree.children));
  }

  lemma DescribesSnoc(stack: seq<nat>, frames: seq<Forest>, f: Forest)
    requires Describes(stack, frames) && f != [] && WellNested(f)
    requires stack != [] ==> Last(stack) < f[0].event.Level()
    ensures Describes(stack + [f[0].event.Level()], frames + [f])
  {
  }

  /** The event that closes a later sibling, leaf or parent. */
  lemma ReplaySibling(frames: seq<Forest>, stack: seq<nat>, front: Forest, tree: Tree)
    requires front != [] && Last(front).event.Level() == front[0].event.Level() == tree.event.Level()
    requires tree.children != [] ==>
      Last(tree.children).event.Level() == tree.children[0].event.Level() > tree.event.Level()
    requires Open(frames).Valid()
    ensures
      var s, t := Open(frames + [front]), Levels(stack + [front[0].event.Level()]);
      var kids := tree.children;
      var s' := if kids == [] then s else Open(s.frames + [kids]);
      var t' := if kids == [] then t else Levels(t.stack + [kids[0].event.Level()]);
      && s'.Valid()
      && Step(s', tree.event) == Open(frames + [front + [tree]])
      && TrackStep(t', tree.event.Level()) == t
  {
    assert Front(frames + [front]) == frames;
    if tree.children == [] {
      assert tree == Node(tree.event, []);
    } else {
      var s1, t1 := frames + [front], stack + [front[0].event.Level()];
      assert Front(s1 + [tree.children]) == s1 && Front(t1 + [tree.children[0].event.Level()]) == t1;
      assert tree == Node(tree.event, tree.children);
    }
  }

  lemma SiblingsShareLevel(forest: Forest, level: nat)
    requires forest != [] && WellNested(forest) && forest[0].event.Level() == level
    ensures Last(forest).event.Level() == level
  {
    assert WellNested(Last(forest).children);
  }

  /** Main result: feeding the listing of a forest to the handler rebuilds exactly
      that forest, with only the implicit root left open. */
  lemma RoundTrip(forest: Forest)
    requires forest != [] && WellNested(forest)
    ensures Run(PostOrder(forest)) == Open([forest])
  {
    Replay(NOTHING, Levels([]), forest);
    assert [] + [forest] == [forest];
  }

  lemma WellNestedSnoc(f: Forest, t: Tree)
    requires f != [] && WellNested(f) && WellNested(t.children)
    requires t.event.Level() == f[0].event.Level()
    requires t.children != [] ==> t.children[0].event.Level() > t.event.Level()
    ensures WellNested(f + [t])
  {
  }

  lemma ConsistentStep(s: Progress, t: Track, e: Event)
    requires s.Open? && t.Levels? && Describes(t.stack, s.frames)
    requires TrackStep(t, e.Level()).Levels?
    ensures Step(s, e).Open? && Describes(TrackStep(t, e.Level()).stack, Step(s, e).frames)
  {
    var leaf := Node(e, []);
    assert WellNested([leaf]);
    if s.frames != [] {
      var top := Last(s.frames);
      assert WellNested(top) && top != [];
      SiblingsShareLevel(top, Last(t.stack));
      if e.Level() == Last(t.stack) {
        WellNestedSnoc(top, leaf);
        DescribesLast(t.stack, s.frames, top + [leaf]);
      } else if e.Level() > Last(t.stack) {
        DescribesSnoc(t.stack, s.frames, [leaf]);
      } else {
        var rest, under := Front(t.stack), Front(s.frames);
        DescribesFront(t.stack, s.frames);
        WellNestedSnoc(Last(under), Node(e, top));
        DescribesLast(rest, under, Last(under) + [Node(e, top)]);
      }
    }
  }

  lemma DescribesFront(stack: seq<nat>, frames: seq<Forest>)
    requires Describes(stack, frames) && frames != []
    ensures Describes(Front(stack), Front(frames))
  {
  }

  /** The innermost siblings may be replaced by others of the same level. */
  lemma DescribesLast(stack: seq<nat>, frames: seq<Forest>, f: Forest)
    requires Describes(stack, frames) && frames != []
    requires f != [] && WellNested(f) && f[0].event.Level() == Last(stack)
    ensures Describes(stack, Front(frames) + [f])
  {
  }

  lemma {:induction false} ConsistentPrefix(log: seq<Event>)
    requires TrackFrom(Levels([]), log).Levels?
    ensures Run(log).Open? && Describes(TrackFrom(Levels([]), log).stack, Run(log).frames)
  {
    if log != [] {
      ConsistentPrefix(Front(log));
      ConsistentStep(Run(Front(log)), TrackFrom(Levels([]), Front(log)), Last(log));
    }
  }

  predicate Lists(forest: Forest, log: seq<Event>) {
    forest != [] && WellNested(forest) && PostOrder(forest) == log
  }

  lemma ListingReplays(forest: Forest, log: seq<Event>)
    requires Lists(forest, log)
    ensures Consistent(log) && Run(log) == Open([forest])
  {
    Replay(NOTHING, Levels([]), forest);
    RoundTrip(forest);
  }

  lemma ConsistentListed(log: seq<Event>) returns (forest: Forest)
    requires Consistent(log)
    ensures Lists(forest, log)
  {
    ConsistentPrefix(log);
    forest := Run(log).frames[0];
    assert Run(log).frames == [forest];
    RebuiltForestListsLog(log, forest);
  }

  /** The precondition of the round trip, seen from the log: the listings of
      well-nested forests are exactly the consistent logs, and such a log comes
      from the forest the handler rebuilds and from no other. */
  lemma ConsistentIffListing(log: seq<Event>)
    ensures Consistent(log) <==> exists f :: Lists(f, log)
    ensures forall f, g :: Lists(f, log) && Lists(g, log) ==> f == g
  {
    if Consistent(log) {
      var f := ConsistentListed(log);
    }
    forall f | Lists(f, log) ensures Consistent(log) && Run(log) == Open([f]) {
      ListingReplays(f, log);
    }
    forall f, g | Lists(f, log) && Lists(g, log) ensures f == g {
      assert Open([f]).frames[0] == Open([g]).frames[0];
    }
  }
}
