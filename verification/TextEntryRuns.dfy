/**
 Every run of a text entry: with well-formed texts and no cursor offsets, cursor and
 anchor stay between characters and no assertion of the editor fails, exactly as
 long as each announced deletion fits the text at the time of its commit.
 */
module TextEntryRuns {
  import opened Numbers
  import opened Utf8
  import opened TextEntry

  // ------------------------------------------------------------------------ events

  /** What the input method sends. */
  datatype Request =
    | CommitEvent(serial: nat, text: Text)
    | PreeditEvent(serial: nat, text: Text, commit: Text)
    | DeleteEvent(index: int, length: nat)
    | CursorEvent(cursor: int, anchor: int)

  datatype Event =
    | Message(request: Request)
    | SymMove(direction: Direction, shift: bool)
    | SymBackspace
    | SymInsert(text: Text)
    | KeyMoveEvent(direction: Direction, shift: bool)
    | KeyBackspaceEvent
    | KeyDeleteEvent
    | KeyInsertEvent(text: Text)
    | EnterEvent
    | LeaveEvent
    | Paste(text: Text)
    | CopyEvent
    | CutEvent

  function Handle(e: Entry, request: Request): (o: Outcome)
    requires e.cursor <= |e.text|
    ensures o.Live? ==> o.entry.cursor <= |o.entry.text|
  {
    match request
    case CommitEvent(serial, text) => CommitString(e, serial, text)
    case PreeditEvent(serial, text, commit) => PreeditString(e, serial, text, commit)
    case DeleteEvent(index, length) => Live(DeleteSurrounding(e, index, length))
    case CursorEvent(cursor, anchor) => Live(CursorPosition(e, cursor, anchor))
  }

  function HandleAll(e: Entry, requests: seq<Request>): (o: Outcome)
    requires e.cursor <= |e.text|
    ensures o.Live? ==> o.entry.cursor <= |o.entry.text|
    decreases |requests|
  {
    if requests == [] then Live(e)
    else
      var o := HandleAll(e, requests[..|requests| - 1]);
      if o.Aborted? then Aborted else Handle(o.entry, requests[|requests| - 1])
  }

  function Step(e: Entry, event: Event): (o: Outcome)
    requires e.cursor <= |e.text|
    ensures o.Live? ==> o.entry.cursor <= |o.entry.text|
  {
    match event
    case Message(request) => Handle(e, request)
    case SymMove(direction, shift) => Live(KeysymMove(e, direction, shift))
    case SymBackspace => KeysymBackspace(e)
    case SymInsert(text) => Insert(e, text, 0, 0)
    case KeyMoveEvent(direction, shift) => Live(KeyMove(e, direction, shift))
    case KeyBackspaceEvent => KeyBackspace(e)
    case KeyDeleteEvent => KeyDelete(e)
    case KeyInsertEvent(text) => KeyInsert(e, text)
    case EnterEvent => Live(Enter(e))
    case LeaveEvent => CommitAndReset(e)
    case Paste(text) => Insert(e, text, 0, 0)
    case CopyEvent => Live(e)
    case CutEvent => Cut(e)
  }

  function Run(e: Entry, events: seq<Event>): (o: Outcome)
    requires e.cursor <= |e.text|
    ensures o.Live? ==> o.entry.cursor <= |o.entry.text|
    decreases |events|
  {
    if events == [] then Live(e)
    else
      var o := Run(e, events[..|events| - 1]);
      if o.Aborted? then Aborted else Step(o.entry, events[|events| - 1])
  }

  // --------------------------------------------------------------------- the invariant

  predicate Sound(e: Entry) {
    && WellFormed(e.text) && |e.text| < LIMIT
    && Boundary(e.text, e.cursor) && Boundary(e.text, e.anchor)
    && (e.preedit.Preedit? ==> WellFormed(e.preedit.text) && WellFormed(e.preedit.commit))
    && e.pending.cursor == 0 && e.pending.anchor == 0
    && e.reset_at <= e.updates
  }

  predicate DeletePends(p: Pending) {
    !p.invalid_delete && p.delete_length != 0
  }

  predicate Aligned(s: Text, index: nat, length: nat) {
    Boundary(s, index) && Boundary(s, index + length)
  }

  /** An announced deletion was of bytes that were there. */
  predicate Good(e: Entry) {
    Sound(e) && (DeletePends(e.pending) ==> e.pending.delete_index < LIMIT && e.pending.delete_length < LIMIT)
  }

  function CommitLength(e: Entry): nat {
    if e.preedit.Preedit? then |e.preedit.commit| else 0
  }

  /** Well-formed texts of ordinary length, and no cursor offsets. */
  predicate Plain(e: Entry, event: Event) {
    match event
    case Message(request) => PlainRequest(e, request)
    case SymMove(_, _) => true
    case EnterEvent => true
    case CopyEvent => true
    case CutEvent => true
    case SymInsert(text) => WellFormed(text) && |e.text| + |text| < LIMIT
    case Paste(text) => WellFormed(text) && |e.text| + |text| < LIMIT
    case KeyInsertEvent(text) => WellFormed(text) && |e.text| + CommitLength(e) + |text| < LIMIT
    case _ => |e.text| + CommitLength(e) < LIMIT
  }

  predicate PlainRequest(e: Entry, request: Request) {
    match request
    case CommitEvent(_, text) => WellFormed(text) && |e.text| + |text| < LIMIT
    case PreeditEvent(_, text, commit) => WellFormed(text) && WellFormed(commit)
    case DeleteEvent(_, _) => true
    case CursorEvent(cursor, anchor) => cursor == 0 && anchor == 0
  }

  /** The event carries out an announced deletion. */
  predicate Deletes(e: Entry, event: Event) {
    && event.Message? && (event.request.CommitEvent? || event.request.PreeditEvent?)
    && Passes(e, event.request.serial) && DeletePends(e.pending)
  }

  /** The announced bytes are there; and they are whole characters, or else what is
      left of two characters joins and the cursor is not in between. */
  predicate DeletionFits(e: Entry) {
    var i, j := e.pending.delete_index, e.pending.delete_index + e.pending.delete_length;
    j <= |e.text| && LeavesText(e.text, e.cursor, i, j)
  }

  predicate LeavesText(s: Text, cursor: nat, i: nat, j: nat)
    requires i <= j <= |s|
  {
    || (Boundary(s, i) && Boundary(s, j))
    || (Joins(s, i, j) && (cursor <= i || j < cursor))
  }

  /** What is asked of the input method and the keys: plain events, and that a
      deletion fits when it is carried out. */
  predicate Admissible(e: Entry, event: Event) {
    Plain(e, event) && (Deletes(e, event) ==> DeletionFits(e))
  }

  // -------------------------------------------------------------------- single steps

  /** What inserting and deleting come to when nothing wraps. */
  function AfterInsertion(e: Entry, t: Text): Entry
    requires e.cursor <= |e.text|
  {
    var cursor := e.cursor + |t|;
    Update(e.(text := Spliced(e.text, e.cursor, e.cursor, t), cursor := cursor, anchor := cursor))
  }

  lemma InsertOutcome(e: Entry, t: Text)
    requires e.cursor <= |e.text| && |e.text| + |t| < LIMIT
    ensures Insert(e, t, 0, 0) == Live(AfterInsertion(e, t))
  {
  }

  /** Where the cursor goes when length bytes at index are deleted. */
  function CursorAfterDelete(cursor: nat, index: nat, length: nat): nat {
    if cursor > index + length then cursor - length else if cursor > index then index else cursor
  }

  function AfterDelete(e: Entry, index: nat, length: nat): Entry
    requires index + length <= |e.text|
  {
    var cursor := CursorAfterDelete(e.cursor, index, length);
    Update(e.(text := Spliced(e.text, index, index + length, []), cursor := cursor, anchor := cursor))
  }

  lemma DeleteOutcome(e: Entry, index: nat, length: nat)
    requires e.cursor <= |e.text| < LIMIT && index + length <= |e.text|
    ensures Delete(e, index, length) == Live(AfterDelete(e, index, length))
  {
    assert e.text[..index] + e.text[index + length..] == Spliced(e.text, index, index + length, []);
  }

  lemma InsertSound(e: Entry, t: Text)
    requires Sound(e) && WellFormed(t) && |e.text| + |t| < LIMIT
    ensures var o := Insert(e, t, 0, 0);
      && o.Live? && Sound(o.entry) && o.entry.pending == e.pending && o.entry.preedit == e.preedit
      && |o.entry.text| == |e.text| + |t|
  {
    InsertOutcome(e, t);
    SpliceWellFormed(e.text, e.cursor, e.cursor, t);
    SpliceAfter(e.text, e.cursor, e.cursor, t, e.cursor);
  }

  lemma CursorAfterDeleteBoundary(s: Text, cursor: nat, index: nat, length: nat)
    requires WellFormed(s) && Aligned(s, index, length) && Boundary(s, cursor)
    ensures Boundary(Spliced(s, index, index + length, []), CursorAfterDelete(cursor, index, length))
  {
    if cursor > index + length {
      SpliceAfter(s, index, index + length, [], cursor);
    } else if cursor > index {
      SpliceBefore(s, index, index + length, [], index);
    } else {
      SpliceBefore(s, index, index + length, [], cursor);
    }
  }

  lemma DeleteSound(e: Entry, index: nat, length: nat)
    requires Sound(e) && Aligned(e.text, index, length)
    ensures var o := Delete(e, index, length);
      && o.Live? && Sound(o.entry) && o.entry.pending == e.pending && o.entry.preedit == e.preedit
      && |o.entry.text| == |e.text| - length && o.entry.cursor == o.entry.anchor
  {
    DeleteOutcome(e, index, length);
    SpliceWellFormed(e.text, index, index + length, []);
    CursorAfterDeleteBoundary(e.text, e.cursor, index, length);
  }

  lemma DeleteSelectedSound(e: Entry)
    requires Sound(e)
    ensures var o := DeleteSelected(e);
      && o.Live? && Sound(o.entry) && o.entry.pending == e.pending && o.entry.preedit == e.preedit
      && |o.entry.text| <= |e.text| && o.entry.cursor == o.entry.anchor
  {
    if e.anchor != e.cursor {
      DeleteSound(e, Min(e.anchor, e.cursor), Max(e.anchor, e.cursor) - Min(e.anchor, e.cursor));
    }
  }

  lemma CommitAndResetSound(e: Entry)
    requires Sound(e) && |e.text| + CommitLength(e) < LIMIT
    ensures var o := CommitAndReset(e);
      && Sound(o.entry) && o.entry.pending == e.pending && o.entry.preedit.NoPreedit?
      && |o.entry.text| == |e.text| + CommitLength(e)
  {
    if e.preedit.Preedit? {
      InsertSound(e.(preedit := NoPreedit), e.preedit.commit);
    }
  }

  lemma ReturnBoundaries(s: Text, p: nat)
    requires WellFormed(s) && p < |s| && s[p] == RETURN
    ensures Boundary(s, p) && Boundary(s, p + 1)
  {
    NextPassesCharacter(s, p);
    assert |s[p..NextChar(s, p).p]| == Width(s[p..NextChar(s, p).p][0]) == 1;
  }

  lemma TargetBoundary(s: Text, cursor: nat, d: Direction)
    requires WellFormed(s) && Boundary(s, cursor)
    ensures Boundary(s, Target(s, cursor, d))
  {
    match d
    case Left =>
    case Right =>
    case Up => if ReturnBefore(s, cursor).At? { ReturnBoundaries(s, ReturnBefore(s, cursor).p); }
    case Down => if ReturnFrom(s, cursor).At? { ReturnBoundaries(s, ReturnFrom(s, cursor).p); }
  }

  lemma MovesSound(e: Entry, d: Direction, shift: bool)
    requires Sound(e)
    ensures Sound(KeysymMove(e, d, shift)) && KeysymMove(e, d, shift).text == e.text
    ensures |e.text| + CommitLength(e) < LIMIT ==>
      Sound(KeyMove(e, d, shift)) && KeyMove(e, d, shift).pending == e.pending
  {
    TargetBoundary(e.text, e.cursor, d);
    if |e.text| + CommitLength(e) < LIMIT {
      CommitAndResetSound(e);
      var f := CommitAndReset(e).entry;
      TargetBoundary(f.text, f.cursor, d);
    }
  }

  lemma DeleteRangeSound(f: Entry, i: nat, j: nat) returns (g: Entry)
    requires Sound(f) && i <= j && Boundary(f.text, i) && Boundary(f.text, j)
    ensures Delete(f, i, j - i) == Live(g) && Sound(g) && g.pending == f.pending
  {
    DeleteSound(f, i, j - i);
    g := Delete(f, i, j - i).entry;
  }

  lemma DeleteBackwardSound(f: Entry) returns (g: Entry)
    requires Sound(f)
    ensures DeleteBackward(f) == Live(g) && Sound(g) && g.pending == f.pending
  {
    var start := PrevChar(f.text, f.cursor);
    if start.At? {
      g := DeleteRangeSound(f, start.p, f.cursor);
    } else {
      g := f;
    }
  }

  lemma DeleteForwardSound(f: Entry) returns (g: Entry)
    requires Sound(f)
    ensures DeleteForward(f) == Live(g) && Sound(g) && g.pending == f.pending
  {
    if f.cursor < |f.text| {
      g := SomethingForward(f);
    } else {
      g := f;
    }
  }

  lemma SomethingForward(f: Entry) returns (g: Entry)
    requires Sound(f) && f.cursor < |f.text|
    ensures DeleteForward(f) == Live(g) && Sound(g) && g.pending == f.pending
  {
    var end := DeleteForwardIs(f);
    g := ForwardSound(f, end, DeleteForward(f));
  }

  lemma ForwardSound(f: Entry, end: nat, o: Outcome) returns (g: Entry)
    requires Sound(f) && f.cursor < end && Boundary(f.text, end) && o == Delete(f, f.cursor, end - f.cursor)
    ensures o == Live(g) && Sound(g) && g.pending == f.pending
  {
    g := DeleteRangeSound(f, f.cursor, end);
  }

  lemma DeleteForwardIs(f: Entry) returns (end: nat)
    requires f.cursor < |f.text|
    ensures f.cursor < end && Boundary(f.text, end) && DeleteForward(f) == Delete(f, f.cursor, end - f.cursor)
  {
    end := NextChar(f.text, f.cursor).p;
  }

  lemma BackspaceSound(e: Entry) returns (g: Entry)
    requires Sound(e) && |e.text| + CommitLength(e) < LIMIT
    ensures KeyBackspace(e) == Live(g) && Sound(g) && g.pending == e.pending
    ensures KeysymBackspace(e) == Live(g)
  {
    CommitAndResetSound(e);
    var f := CommitAndReset(e).entry;
    g := DeleteBackwardSound(f);
    if PrevChar(f.text, f.cursor).At? {
      PrevThenNext(f.text, f.cursor);
    }
  }

  lemma DeleteKeySound(e: Entry) returns (g: Entry)
    requires Sound(e) && |e.text| + CommitLength(e) < LIMIT
    ensures KeyDelete(e) == Live(g) && Sound(g) && g.pending == e.pending
  {
    CommitAndResetSound(e);
    g := DeleteForwardSound(CommitAndReset(e).entry);
  }

  // ------------------------------------------------- carrying out announced deletions

  /** A place between the characters of well-formed text. */
  predicate InText(s: Text, i: nat) {
    WellFormed(s) && Boundary(s, i)
  }

  lemma CursorLeft(s: Text, cursor: nat, i: nat, length: nat)
    requires i + length <= |s| && Boundary(s, cursor) && !Boundary(s, i) && !Boundary(s, i + length)
    ensures Boundary(Spliced(s, i, i + length, []), CursorAfterDelete(cursor, i, length))
      <==> cursor <= i || i + length < cursor
  {
    var j := i + length;
    var r := Spliced(s, i, j, []);
    assert cursor != i && cursor != j && r[i] == s[j];
    if cursor < i {
      assert r[cursor] == s[cursor];
    } else if j < cursor {
      SpliceAfter(s, i, j, [], cursor);
    }
  }

  /** A deletion leaves well-formed text with the cursor between characters. */
  lemma DeletedTextIff(s: Text, cursor: nat, i: nat, length: nat)
    requires WellFormed(s) && Boundary(s, cursor) && i + length <= |s|
    ensures var r := Spliced(s, i, i + length, []);
      InText(r, CursorAfterDelete(cursor, i, length)) <==> LeavesText(s, cursor, i, i + length)
  {
    if Boundary(s, i) && Boundary(s, i + length) {
      DeletedWhole(s, cursor, i, length);
    } else if Boundary(s, i) || Boundary(s, i + length) {
      DeletedAskew(s, cursor, i, length);
    } else {
      DeletedInsideIff(s, cursor, i, length);
    }
  }

  lemma DeletedWhole(s: Text, cursor: nat, i: nat, length: nat)
    requires WellFormed(s) && Boundary(s, cursor) && Aligned(s, i, length)
    ensures InText(Spliced(s, i, i + length, []), CursorAfterDelete(cursor, i, length))
    ensures LeavesText(s, cursor, i, i + length)
  {
    SpliceWellFormed(s, i, i + length, []);
    CursorAfterDeleteBoundary(s, cursor, i, length);
  }

  lemma DeletedAskew(s: Text, cursor: nat, i: nat, length: nat)
    requires WellFormed(s) && i + length <= |s| && Boundary(s, i) != Boundary(s, i + length)
    ensures !InText(Spliced(s, i, i + length, []), CursorAfterDelete(cursor, i, length))
    ensures !LeavesText(s, cursor, i, i + length)
  {
    NotCut(s, i, i + length);
    Broken(Spliced(s, i, i + length, []), CursorAfterDelete(cursor, i, length));
    NotLeft(s, cursor, i, i + length);
  }

  lemma NotCut(s: Text, i: nat, j: nat)
    requires WellFormed(s) && i <= j <= |s| && Boundary(s, i) != Boundary(s, j)
    ensures !WellFormed(Spliced(s, i, j, []))
  {
    if Boundary(s, i) {
      CutFromBoundary(s, i, j);
    } else {
      CutToBoundary(s, i, j);
    }
  }

  lemma Broken(s: Text, i: nat)
    requires !WellFormed(s)
    ensures !InText(s, i)
  {
  }

  lemma NotLeft(s: Text, cursor: nat, i: nat, j: nat)
    requires i <= j <= |s| && Boundary(s, i) != Boundary(s, j)
    ensures !LeavesText(s, cursor, i, j)
  {
  }

  lemma DeletedInsideIff(s: Text, cursor: nat, i: nat, length: nat)
    requires WellFormed(s) && Boundary(s, cursor) && i + length <= |s|
    requires !Boundary(s, i) && !Boundary(s, i + length)
    ensures InText(Spliced(s, i, i + length, []), CursorAfterDelete(cursor, i, length))
      <==> Joins(s, i, i + length) && (cursor <= i || i + length < cursor)
  {
    CutInside(s, i, i + length);
    CursorLeft(s, cursor, i, length);
  }

  function AfterDeletion(e: Entry): Entry
    requires e.pending.delete_index + e.pending.delete_length <= |e.text|
  {
    AfterDelete(e, e.pending.delete_index, e.pending.delete_length)
  }

  lemma CommitOfDeletion(e: Entry, serial: nat, t: Text)
    requires Good(e) && DeletePends(e.pending) && Passes(e, serial) && |e.text| + |t| < LIMIT
    requires e.pending.delete_index + e.pending.delete_length <= |e.text|
    ensures CommitString(e, serial, t) == Live(Committed(e, t))
  {
    var f := e.(preedit := NoPreedit);
    DeleteOutcome(f, e.pending.delete_index, e.pending.delete_length);
    InsertOutcome(AfterDeletion(f), t);
  }

  lemma PreeditOfDeletion(e: Entry, serial: nat, t: Text, commit: Text)
    requires Good(e) && DeletePends(e.pending) && Passes(e, serial)
    requires e.pending.delete_index + e.pending.delete_length <= |e.text|
    ensures PreeditString(e, serial, t, commit) == Live(Preedited(e, t, commit))
  {
    DeleteOutcome(e, e.pending.delete_index, e.pending.delete_length);
  }

  /** The entry after an announced deletion was committed with text t. */
  function Committed(e: Entry, t: Text): Entry
    requires e.pending.delete_index + e.pending.delete_length <= |e.text| && e.cursor <= |e.text|
  {
    AfterInsertion(AfterDeletion(e.(preedit := NoPreedit)), t).(pending := NOTHING)
  }

  /** r and c stand for the text and cursor that are left. */
  lemma FitsIff(e: Entry, r: Text, c: nat)
    requires e.pending.delete_index + e.pending.delete_length <= |e.text|
    requires InText(r, c) <==>
      LeavesText(e.text, e.cursor, e.pending.delete_index, e.pending.delete_index + e.pending.delete_length)
    ensures InText(r, c) <==> DeletionFits(e)
  {
  }

  lemma DeletedFields(e: Entry)
    requires e.pending.delete_index + e.pending.delete_length <= |e.text|
    ensures var i, length := e.pending.delete_index, e.pending.delete_length;
      && AfterDeletion(e).text == Spliced(e.text, i, i + length, [])
      && AfterDeletion(e).cursor == CursorAfterDelete(e.cursor, i, length)
  {
  }

  lemma DeletedFitsIff(e: Entry)
    requires WellFormed(e.text) && Boundary(e.text, e.cursor)
    requires e.pending.delete_index + e.pending.delete_length <= |e.text|
    ensures InText(AfterDeletion(e).text, AfterDeletion(e).cursor) <==> DeletionFits(e)
  {
    var i, length := e.pending.delete_index, e.pending.delete_length;
    DeletedFields(e);
    DeletedTextIff(e.text, e.cursor, i, length);
    FitsIff(e, Spliced(e.text, i, i + length, []), CursorAfterDelete(e.cursor, i, length));
  }

  lemma TypedIff(f: Entry, t: Text)
    requires f.cursor <= |f.text| && WellFormed(t)
    ensures InText(AfterInsertion(f, t).text, AfterInsertion(f, t).cursor) <==> InText(f.text, f.cursor)
  {
    PutInIff(f.text, f.cursor, t);
  }

  lemma CommittedFitsIff(e: Entry, t: Text)
    requires WellFormed(e.text) && Boundary(e.text, e.cursor) && WellFormed(t)
    requires e.pending.delete_index + e.pending.delete_length <= |e.text|
    ensures InText(Committed(e, t).text, Committed(e, t).cursor) <==> DeletionFits(e)
  {
    var e0 := e.(preedit := NoPreedit);
    FitsAlike(e, e0);
    DeletedFitsIff(e0);
    var f := AfterDeletion(e0);
    TypedIff(f, t);
    CommittedFields(e, t, f);
  }

  lemma FitsAlike(e: Entry, e0: Entry)
    requires e0.text == e.text && e0.cursor == e.cursor && e0.pending == e.pending
    ensures DeletionFits(e0) <==> DeletionFits(e)
  {
  }

  lemma CommittedFields(e: Entry, t: Text, f: Entry)
    requires e.pending.delete_index + e.pending.delete_length <= |e.text| && e.cursor <= |e.text|
    requires f == AfterDeletion(e.(preedit := NoPreedit)) && f.cursor <= |f.text|
    ensures Committed(e, t).text == AfterInsertion(f, t).text && Committed(e, t).cursor == AfterInsertion(f, t).cursor
  {
  }

  lemma CommittedOtherwise(e: Entry, t: Text)
    requires e.cursor <= |e.text| && |e.text| + |t| < LIMIT && e.reset_at <= e.updates
    requires e.pending.delete_index + e.pending.delete_length <= |e.text|
    ensures var g := Committed(e, t);
      && |g.text| < LIMIT && g.preedit.NoPreedit? && g.reset_at <= g.updates
      && g.pending == NOTHING && g.anchor == g.cursor
  {
  }

  lemma CommittedGoodIff(e: Entry, t: Text)
    requires Good(e) && WellFormed(t) && |e.text| + |t| < LIMIT
    requires e.pending.delete_index + e.pending.delete_length <= |e.text|
    ensures Good(Committed(e, t)) <==> DeletionFits(e)
  {
    CommittedFitsIff(e, t);
    CommittedOtherwise(e, t);
    TextDecides(Committed(e, t));
  }

  /** Committing an announced deletion that is within the text leaves the entry sound
      exactly when it fits. */
  lemma CommitSoundIff(e: Entry, serial: nat, t: Text) returns (g: Entry)
    requires Good(e) && DeletePends(e.pending) && Passes(e, serial) && WellFormed(t) && |e.text| + |t| < LIMIT
    requires e.pending.delete_index + e.pending.delete_length <= |e.text|
    ensures CommitString(e, serial, t) == Live(g)
    ensures Good(g) <==> DeletionFits(e)
  {
    g := Committed(e, t);
    CommitOfDeletion(e, serial, t);
    CommittedGoodIff(e, t);
  }

  /** What is not text or cursor stays in order. */
  lemma TextDecides(g: Entry)
    requires g.preedit.Preedit? ==> WellFormed(g.preedit.text) && WellFormed(g.preedit.commit)
    requires |g.text| < LIMIT && g.reset_at <= g.updates && g.pending == NOTHING
    requires g.anchor == g.cursor
    ensures Good(g) <==> InText(g.text, g.cursor)
  {
  }

  function Preedited(e: Entry, t: Text, commit: Text): Entry
    requires e.pending.delete_index + e.pending.delete_length <= |e.text|
  {
    Update(AfterDeletion(e).(preedit := Preedit(t, commit), pending := NOTHING))
  }

  lemma PreeditedFitsIff(e: Entry, t: Text, commit: Text)
    requires WellFormed(e.text) && Boundary(e.text, e.cursor)
    requires e.pending.delete_index + e.pending.delete_length <= |e.text|
    ensures InText(Preedited(e, t, commit).text, Preedited(e, t, commit).cursor) <==> DeletionFits(e)
  {
    DeletedFitsIff(e);
  }

  lemma PreeditSoundIff(e: Entry, serial: nat, t: Text, commit: Text) returns (g: Entry)
    requires Good(e) && DeletePends(e.pending) && Passes(e, serial) && WellFormed(t) && WellFormed(commit)
    requires e.pending.delete_index + e.pending.delete_length <= |e.text|
    ensures PreeditString(e, serial, t, commit) == Live(g)
    ensures Good(g) <==> DeletionFits(e)
  {
    g := Preedited(e, t, commit);
    PreeditOfDeletion(e, serial, t, commit);
    PreeditedFitsIff(e, t, commit);
    PreeditedOtherwise(e, t, commit);
    TextDecides(g);
  }

  lemma PreeditedOtherwise(e: Entry, t: Text, commit: Text)
    requires e.cursor <= |e.text| < LIMIT && e.reset_at <= e.updates
    requires e.pending.delete_index + e.pending.delete_length <= |e.text|
    ensures var g := Preedited(e, t, commit);
      && |g.text| < LIMIT && g.preedit == Preedit(t, commit) && g.reset_at <= g.updates
      && g.pending == NOTHING && g.anchor == g.cursor
  {
  }

  /** An announced deletion that reaches past the text fails an assertion. */
  lemma LongDeletionAborts(e: Entry, serial: nat, t: Text, commit: Text)
    requires Good(e) && DeletePends(e.pending) && Passes(e, serial)
    requires e.pending.delete_index + e.pending.delete_length > |e.text|
    ensures CommitString(e, serial, t).Aborted? && PreeditString(e, serial, t, commit).Aborted?
  {
  }

  lemma CommitStringGood(e: Entry, serial: nat, t: Text)
    requires Good(e) && WellFormed(t) && |e.text| + |t| < LIMIT && !(Passes(e, serial) && DeletePends(e.pending))
    ensures CommitString(e, serial, t).Live? && Good(CommitString(e, serial, t).entry)
  {
    if Passes(e, serial) && !e.pending.invalid_delete {
      var f := e.(preedit := NoPreedit);
      DeleteSelectedSound(f);
      var g := DeleteSelected(f).entry;
      InsertSound(g, t);
      var h := Insert(g, t, 0, 0).entry;
      assert CommitString(e, serial, t) == Live(h.(pending := NOTHING));
    }
  }

  lemma PreeditStringGood(e: Entry, serial: nat, t: Text, commit: Text)
    requires Good(e) && WellFormed(t) && WellFormed(commit) && !(Passes(e, serial) && DeletePends(e.pending))
    ensures PreeditString(e, serial, t, commit).Live? && Good(PreeditString(e, serial, t, commit).entry)
  {
    if Passes(e, serial) && !e.pending.invalid_delete {
      DeleteSelectedSound(e);
    }
  }

  predicate Lasts(o: Outcome) {
    o.Live? && Good(o.entry)
  }

  lemma HandleGoodIff(e: Entry, request: Request)
    requires Good(e) && PlainRequest(e, request)
    ensures Lasts(Handle(e, request)) <==> (Deletes(e, Message(request)) ==> DeletionFits(e))
  {
    match request
    case CommitEvent(serial, text) =>
      if !Deletes(e, Message(request)) {
        CommitStringGood(e, serial, text);
      } else if e.pending.delete_index + e.pending.delete_length <= |e.text| {
        var g := CommitSoundIff(e, serial, text);
      } else {
        LongDeletionAborts(e, serial, text, text);
      }
    case PreeditEvent(serial, text, commit) =>
      if !Deletes(e, Message(request)) {
        PreeditStringGood(e, serial, text, commit);
      } else if e.pending.delete_index + e.pending.delete_length <= |e.text| {
        var g := PreeditSoundIff(e, serial, text, commit);
      } else {
        LongDeletionAborts(e, serial, text, commit);
      }
    case _ =>
  }

  // ------------------------------------------------------------------- keys and others

  lemma InsertKeysGood(e: Entry, event: Event)
    requires Good(e) && Plain(e, event)
    requires event.SymInsert? || event.KeyInsertEvent? || event.Paste?
    ensures Step(e, event).Live? && Good(Step(e, event).entry)
  {
    if event.KeyInsertEvent? {
      CommitAndResetSound(e);
      InsertSound(CommitAndReset(e).entry, event.text);
    } else {
      InsertSound(e, event.text);
    }
  }

  lemma EditKeysGood(e: Entry, event: Event)
    requires Good(e) && Plain(e, event)
    requires event.SymMove? || event.SymBackspace? || event.KeyMoveEvent?
      || event.KeyBackspaceEvent? || event.KeyDeleteEvent?
    ensures Step(e, event).Live? && Good(Step(e, event).entry)
  {
    match event
    case SymMove(direction, shift) => MovesSound(e, direction, shift);
    case KeyMoveEvent(direction, shift) => MovesSound(e, direction, shift);
    case KeyDeleteEvent =>
      var f := DeleteKeySound(e);
    case _ =>
      var f := BackspaceSound(e);
  }

  lemma OtherGood(e: Entry, event: Event)
    requires Good(e) && Plain(e, event)
    requires event.EnterEvent? || event.LeaveEvent? || event.CopyEvent? || event.CutEvent?
    ensures Step(e, event).Live? && Good(Step(e, event).entry)
  {
    match event
    case LeaveEvent => CommitAndResetSound(e);
    case CutEvent => CutGood(e);
    case EnterEvent => assert Step(e, event).entry == Reset(e);
    case CopyEvent => assert Step(e, event).entry == e;
  }

  lemma CutGood(e: Entry)
    requires Good(e)
    ensures Cut(e).Live? && Good(Cut(e).entry)
  {
    if e.cursor != e.anchor {
      var f := DeleteLive(e, SelectionStart(e), SelectionEnd(e) - SelectionStart(e));
    }
  }

  lemma DeleteLive(e: Entry, index: nat, length: nat) returns (f: Entry)
    requires Good(e) && Aligned(e.text, index, length)
    ensures Delete(e, index, length) == Live(f) && Good(f)
  {
    DeleteSound(e, index, length);
    f := Delete(e, index, length).entry;
  }

  /** Every plain event keeps the invariant, and no assertion fails, exactly when a
      deletion that it carries out fits. */
  lemma StepGoodIff(e: Entry, event: Event)
    requires Good(e) && Plain(e, event)
    ensures Lasts(Step(e, event)) <==> (Deletes(e, event) ==> DeletionFits(e))
  {
    if event.Message? {
      HandleGoodIff(e, event.request);
    } else if event.SymInsert? || event.KeyInsertEvent? || event.Paste? {
      InsertKeysGood(e, event);
    } else if event.EnterEvent? || event.LeaveEvent? || event.CopyEvent? || event.CutEvent? {
      OtherGood(e, event);
    } else {
      EditKeysGood(e, event);
    }
  }

  lemma StepGood(e: Entry, event: Event)
    requires Good(e) && Admissible(e, event)
    ensures Step(e, event).Live? && Good(Step(e, event).entry)
  {
    StepGoodIff(e, event);
  }

  ghost predicate AdmissibleAt(e: Entry, events: seq<Event>, i: nat)
    requires e.cursor <= |e.text| && i < |events|
  {
    Run(e, events[..i]).Live? ==> Admissible(Run(e, events[..i]).entry, events[i])
  }

  ghost predicate AllAdmissible(e: Entry, events: seq<Event>)
    requires e.cursor <= |e.text|
  {
    forall i: nat | i < |events| :: AdmissibleAt(e, events, i)
  }

  /** No assertion fails in any run, and it ends with cursor and anchor between
      characters of well-formed text. */
  lemma {:induction false} RunGood(e: Entry, events: seq<Event>)
    requires Good(e) && AllAdmissible(e, events)
    ensures Run(e, events).Live? && Good(Run(e, events).entry)
  {
    if events != [] {
      var n := |events| - 1;
      AdmissiblePrefix(e, events, n);
      RunGood(e, events[..n]);
      assert AdmissibleAt(e, events, n);
      StepGood(Run(e, events[..n]).entry, events[n]);
    }
  }

  lemma AdmissiblePrefix(e: Entry, events: seq<Event>, n: nat)
    requires e.cursor <= |e.text| && n <= |events| && AllAdmissible(e, events)
    ensures AllAdmissible(e, events[..n])
  {
    forall i: nat | i < n ensures AdmissibleAt(e, events[..n], i) {
      assert events[..n][..i] == events[..i];
      assert AdmissibleAt(e, events, i);
    }
  }

  ghost predicate PlainAt(e: Entry, events: seq<Event>, i: nat)
    requires e.cursor <= |e.text| && i < |events|
  {
    Run(e, events[..i]).Live? ==> Plain(Run(e, events[..i]).entry, events[i])
  }

  ghost predicate LastsAt(e: Entry, events: seq<Event>, i: nat)
    requires e.cursor <= |e.text| && i <= |events|
  {
    Lasts(Run(e, events[..i]))
  }

  /** Over a whole run of plain events: the invariant holds and no assertion fails at any
      point exactly when the run is admissible, so exactly when every deletion carried
      out in it fits. */
  lemma RunGoodIff(e: Entry, events: seq<Event>)
    requires Good(e) && forall i: nat | i < |events| :: PlainAt(e, events, i)
    ensures (forall i: nat | i <= |events| :: LastsAt(e, events, i)) <==> AllAdmissible(e, events)
  {
    if AllAdmissible(e, events) {
      forall i: nat | i <= |events| ensures LastsAt(e, events, i) {
        AdmissiblePrefix(e, events, i);
        RunGood(e, events[..i]);
      }
    }
    if forall i: nat | i <= |events| :: LastsAt(e, events, i) {
      forall i: nat | i < |events| ensures AdmissibleAt(e, events, i) {
        assert LastsAt(e, events, i) && LastsAt(e, events, i + 1) && PlainAt(e, events, i);
        assert events[..i + 1][..i] == events[..i];
        StepGoodIff(Run(e, events[..i]).entry, events[i]);
      }
    }
  }

  /** From its creation on, an entry keeps the invariant in every admissible run. */
  lemma CreatedRunGood(text: Text, events: seq<Event>)
    requires WellFormed(text) && |text| < LIMIT && AllAdmissible(Created(text), events)
    ensures Run(Created(text), events).Live? && Good(Run(Created(text), events).entry)
  {
    RunGood(Created(text), events);
  }

  // ----------------------------------------------------------- where assertions fail

  /** An announced deletion that is committed after the text changed fails exactly
      when it reaches past the text. */
  lemma StaleDeletionAbortsIff(e: Entry, serial: nat, t: Text)
    requires Good(e) && DeletePends(e.pending) && Passes(e, serial) && |e.text| + |t| < LIMIT
    ensures CommitString(e, serial, t).Aborted? <==> e.pending.delete_index + e.pending.delete_length > |e.text|
  {
    if e.pending.delete_index + e.pending.delete_length <= |e.text| {
      CommitOfDeletion(e, serial, t);
    } else {
      LongDeletionAborts(e, serial, t, t);
    }
  }

  /** The offsets with which text can be inserted: no further than the end of the
      old text, and no further back than its start. */
  lemma InsertAbortsIff(e: Entry, t: Text, cursor: int, anchor: int)
    requires e.cursor <= |e.text| && e.preedit.NoPreedit? && |e.text| + |t| < LIMIT
    requires -LIMIT <= cursor < LIMIT
    ensures Insert(e, t, cursor, anchor).Live? <==>
      if cursor >= 0 then cursor <= |e.text| - e.cursor else -cursor <= e.cursor + 1
  {
    if cursor >= 0 {
      assert Wrapped(e.cursor + |t| + cursor) == e.cursor + |t| + cursor;
    } else if e.cursor + 1 + cursor < 0 {
      assert Wrapped(e.cursor + 1 + cursor) == e.cursor + 1 + cursor + U32;
    }
  }

  /** A run goes on with one more event. */
  lemma RunGoesOn(e: Entry, events: seq<Event>, a: Event, f: Entry)
    requires e.cursor <= |e.text| && Run(e, events) == Live(f)
    ensures Run(e, events + [a]) == Step(f, a)
  {
    assert (events + [a])[..|events|] == events;
  }

  lemma RunReaches(e: Entry, events: seq<Event>, a: Event, f: Entry, g: Entry)
    requires e.cursor <= |e.text| && Run(e, events) == Live(f)
    requires f.cursor <= |f.text| && Step(f, a) == Live(g)
    ensures Run(e, events + [a]) == Live(g)
  {
    RunGoesOn(e, events, a, f);
  }

  /** Requests and nothing else are a run like any other. */
  function Messages(requests: seq<Request>): seq<Event> {
    seq(|requests|, i requires 0 <= i < |requests| => Message(requests[i]))
  }

  lemma {:induction false} RunOfMessages(e: Entry, requests: seq<Request>)
    requires e.cursor <= |e.text|
    ensures Run(e, Messages(requests)) == HandleAll(e, requests)
  {
    if requests != [] {
      var n := |requests| - 1;
      assert Messages(requests)[..n] == Messages(requests[..n]);
      RunOfMessages(e, requests[..n]);
    }
  }

  /** Requests handled in two parts. */
  lemma {:induction false} HandleParts(e: Entry, first: seq<Request>, second: seq<Request>)
    requires e.cursor <= |e.text| && HandleAll(e, first).Live?
    ensures HandleAll(e, first + second) == HandleAll(HandleAll(e, first).entry, second)
  {
    if second == [] {
      assert first + second == first;
    } else {
      var most, last := second[..|second| - 1], second[|second| - 1];
      HandleParts(e, first, most);
      HandleMore(e, first + most, last);
      HandleMore(HandleAll(e, first).entry, most, last);
      assert second == most + [last] && first + second == first + most + [last];
    }
  }

  lemma HandleMore(e: Entry, requests: seq<Request>, a: Request)
    requires e.cursor <= |e.text|
    ensures HandleAll(e, requests + [a]) ==
      var o := HandleAll(e, requests); if o.Aborted? then Aborted else Handle(o.entry, a)
  {
    assert (requests + [a])[..|requests|] == requests;
  }

  lemma HandleOne(e: Entry, a: Request)
    requires e.cursor <= |e.text|
    ensures HandleAll(e, [a]) == Handle(e, a)
  {
    assert [a][..0] == [];
    assert HandleAll(e, []) == Live(e);
  }

  lemma HandleTwo(e: Entry, a: Request, b: Request)
    requires e.cursor <= |e.text| && Handle(e, a).Live?
    ensures HandleAll(e, [a, b]) == Handle(Handle(e, a).entry, b)
  {
    assert [a, b][..1] == [a];
    HandleOne(e, a);
  }
}
