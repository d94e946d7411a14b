/**
 The text side of clients/keyboard.c: the preedit being typed, the shadow copy of
 the editor's text, and the requests sent to the editor, taken as its events.
 */
module KeyboardText {
  import opened Utf8
  import opened TextEntry
  import opened TextEntryRuns
  import opened TextEntrySerials
  import opened TextEntryEdits
  import opened TextEntryTold

  datatype Shadow = NoShadow | Shadow(text: Text, cursor: nat)

  datatype Keyboard = Keyboard(preedit: Text, shadow: Shadow, serial: nat)

  predicate Valid(k: Keyboard) {
    k.shadow.Shadow? ==> k.shadow.cursor <= |k.shadow.text|
  }

  // ------------------------------------------------------------------- committing

  function CommitRequests(k: Keyboard): seq<Request> {
    if k.preedit == [] then [] else [CursorEvent(0, 0), CommitEvent(k.serial, k.preedit)]
  }

  function CommittedKeys(k: Keyboard): (r: Keyboard)
    requires Valid(k)
    ensures Valid(r)
  {
    if k.preedit == [] then k
    else match k.shadow
      case NoShadow => Keyboard([], Shadow(k.preedit, |k.preedit|), k.serial)
      case Shadow(text, cursor) =>
        Keyboard([], Shadow(Spliced(text, cursor, cursor, k.preedit), cursor + |k.preedit|), k.serial)
  }

  // --------------------------------------------------------------------- deleting

  /** The start of the character before the shadow's cursor. */
  function Before(k: Keyboard): Position
    requires Valid(k)
  {
    if k.shadow.NoShadow? then Nowhere else PrevChar(k.shadow.text, k.shadow.cursor)
  }

  function DeleteRequests(k: Keyboard): seq<Request>
    requires Valid(k)
  {
    match Before(k)
    case Nowhere => []
    case At(start) => Deletion(start, k.shadow.cursor, k.serial)
  }

  /** Delete from start to the cursor, and commit nothing. */
  function Deletion(start: nat, cursor: nat, serial: nat): seq<Request>
    requires start <= cursor
  {
    [DeleteEvent(start - cursor, cursor - start), CommitEvent(serial, [])]
  }

  /** The bytes left in a buffer when its end part is moved down to start, and what
      was behind it, with the terminator, stays in place. */
  function MovedDown(text: Text, start: nat, end: nat): Text
    requires start <= end <= |text|
  {
    if end == |text| then text[..start] else text[..start] + text[end..] + text[start + |text| - end..]
  }

  function Deleted(k: Keyboard): (r: Keyboard)
    requires Valid(k)
    ensures Valid(r)
  {
    match Before(k)
    case Nowhere => k
    case At(start) => k.(shadow := Shadow(MovedDown(k.shadow.text, start, k.shadow.cursor), start))
  }

  /** The shadow loses just the character before its cursor exactly when the cursor
      is at the end. */
  lemma DeletedExactIff(k: Keyboard)
    requires Valid(k) && Before(k).At?
    ensures Deleted(k).shadow.text == Spliced(k.shadow.text, Before(k).p, k.shadow.cursor, [])
      <==> k.shadow.cursor == |k.shadow.text|
  {
    var start, end, text := Before(k).p, k.shadow.cursor, k.shadow.text;
    if end < |text| {
      assert |MovedDown(text, start, end)| == |text|;
    }
  }

  // ------------------------------------------------------------ synchronised states

  /** The editor has no selection and nothing announced, the shadow is its text, and
      the keyboard's serial is from a state since the editor's last reset. */
  predicate Synced(k: Keyboard, e: Entry, m: nat) {
    && k.shadow == Shadow(e.text, e.cursor)
    && e.anchor == e.cursor <= |e.text| < LIMIT
    && e.pending == NOTHING
    && k.serial == Serial(m) && e.reset_at <= m <= e.updates
  }

  /** The preedit the editor shows is the one being typed. */
  predicate Shown(k: Keyboard, e: Entry) {
    match e.preedit
    case NoPreedit => k.preedit == []
    case Preedit(text, commit) => text == k.preedit && commit == k.preedit
  }

  /** What a commit does in a synchronised editor. */
  lemma CommitOutcome(e: Entry, m: nat, t: Text)
    requires e.anchor == e.cursor <= |e.text| && |e.text| + |t| < LIMIT
    requires e.pending == NOTHING && e.reset_at <= m <= e.updates < e.reset_at + U32
    ensures CommitString(e, Serial(m), t) == Live(AfterInsertion(e.(preedit := NoPreedit), t))
  {
    FreshTaken(e, m);
    InsertOutcome(e.(preedit := NoPreedit), t);
  }

  lemma PreeditOutcome(e: Entry, m: nat, t: Text)
    requires e.anchor == e.cursor <= |e.text|
    requires e.pending == NOTHING && e.reset_at <= m <= e.updates < e.reset_at + U32
    ensures PreeditString(e, Serial(m), t, t) == Live(Update(e.(preedit := Preedit(t, t))))
  {
    FreshTaken(e, m);
  }

  /** A commit leaves the shadow and the editor with the same text and cursor. */
  lemma CommitKeepsSync(k: Keyboard, e: Entry, m: nat)
    requires Synced(k, e, m) && Shown(k, e) && |e.text| + |k.preedit| < LIMIT && e.updates < e.reset_at + U32
    ensures var o := HandleAll(e, CommitRequests(k));
      && o.Live? && Synced(CommittedKeys(k), o.entry, m) && Shown(CommittedKeys(k), o.entry)
      && o.entry.text == Spliced(e.text, e.cursor, e.cursor, k.preedit) && o.entry.cursor == e.cursor + |k.preedit|
      && o.entry.updates <= e.updates + 1 && o.entry.reset_at == e.reset_at
  {
    if k.preedit == [] {
      assert Spliced(e.text, e.cursor, e.cursor, []) == e.text;
    } else {
      HandleTwo(e, CursorEvent(0, 0), CommitEvent(k.serial, k.preedit));
      assert CursorPosition(e, 0, 0) == e;
      CommitOutcome(e, m, k.preedit);
    }
  }

  /** The deletion the keyboard asks for is the bytes from start to the cursor. */
  lemma Announced(e: Entry, start: nat)
    requires e.cursor <= |e.text| < LIMIT && start < e.cursor && e.pending == NOTHING
    ensures DeleteSurrounding(e, start - e.cursor, e.cursor - start)
      == e.(pending := Pending(0, 0, start, e.cursor - start, false))
  {
  }

  /** f is e after the bytes from start to the cursor were deleted for the keyboard. */
  predicate DeletedFrom(e: Entry, start: nat, f: Entry)
    requires start <= e.cursor <= |e.text|
  {
    && f.text == Spliced(e.text, start, e.cursor, []) && f.cursor == f.anchor == start
    && f.preedit.NoPreedit? && f.pending == NOTHING
    && f.updates == e.updates + 2 && f.reset_at == e.reset_at
  }

  /** Committing it with no text. */
  lemma CommitDeletion(e: Entry, m: nat, start: nat) returns (f: Entry)
    requires e.cursor <= |e.text| < LIMIT && start < e.cursor
    requires e.reset_at <= m <= e.updates < e.reset_at + U32
    requires e.pending == Pending(0, 0, start, e.cursor - start, false)
    ensures CommitString(e, Serial(m), []) == Live(f) && DeletedFrom(e, start, f)
  {
    FreshTaken(e, m);
    var bare := e.(preedit := NoPreedit);
    DeleteOutcome(bare, start, e.cursor - start);
    var g := AfterDelete(bare, start, e.cursor - start);
    InsertOutcome(g, []);
    assert Spliced(g.text, start, start, []) == g.text;
    f := CommitString(e, Serial(m), []).entry;
  }

  /** The keyboard's deletion takes from the editor what the editor's own Backspace
      takes, and the cursors agree afterwards; the editor may show an empty preedit ... */
  lemma DeleteIsBackspace(k: Keyboard, e: Entry, m: nat)
    requires Synced(k, e, m) && Shown(k, e) && k.preedit == [] && e.updates + 1 < e.reset_at + U32
    ensures var o := HandleAll(e, DeleteRequests(k));
      && o.Live? && KeyBackspace(e).Live?
      && o.entry.text == KeyBackspace(e).entry.text && o.entry.cursor == o.entry.anchor == KeyBackspace(e).entry.cursor
      && o.entry.cursor == Deleted(k).shadow.cursor
  {
    var f := BackspaceWithoutText(e);
    var g := DeletionOutcome(k, e, m);
  }

  /** g is e without the character before its cursor, if there is one. */
  predicate ErasedBefore(e: Entry, g: Entry)
    requires e.cursor <= |e.text|
  {
    match PrevChar(e.text, e.cursor)
    case Nowhere => g.text == e.text && g.cursor == e.cursor
    case At(start) => g.text == Spliced(e.text, start, e.cursor, []) && g.cursor == start
  }

  lemma DeletionOutcome(k: Keyboard, e: Entry, m: nat) returns (g: Entry)
    requires Synced(k, e, m) && e.updates + 1 < e.reset_at + U32
    ensures HandleAll(e, DeleteRequests(k)) == Live(g) && ErasedBefore(e, g)
    ensures g.cursor == g.anchor == Deleted(k).shadow.cursor
  {
    match Before(k)
    case Nowhere =>
      g := e;
    case At(start) =>
      g := DeletionHandled(k, e, m, start);
  }

  /** Backspace when no preedit, or an empty one, is shown. */
  lemma BackspaceWithoutText(e: Entry) returns (g: Entry)
    requires e.anchor == e.cursor <= |e.text| < LIMIT && CommitLength(e) == 0
    ensures KeyBackspace(e) == Live(g) && g.cursor == g.anchor && ErasedBefore(e, g)
  {
    var f := ResetWithoutText(e);
    var start := PrevChar(e.text, e.cursor);
    if start.At? {
      DeleteOutcome(f, start.p, f.cursor - start.p);
      g := AfterDelete(f, start.p, f.cursor - start.p);
    } else {
      g := f;
    }
  }

  /** Committing an empty preedit changes nothing that is seen. */
  lemma ResetWithoutText(e: Entry) returns (f: Entry)
    requires e.anchor == e.cursor <= |e.text| < LIMIT && CommitLength(e) == 0
    ensures CommitAndReset(e) == Live(f) && f.text == e.text && f.cursor == f.anchor == e.cursor
  {
    f := CommitAndReset(e).entry;
    if e.preedit.Preedit? {
      InsertOutcome(e.(preedit := NoPreedit), []);
      assert Spliced(e.text, e.cursor, e.cursor, []) == e.text;
    }
  }

  lemma DeletionHandled(k: Keyboard, e: Entry, m: nat, start: nat) returns (f: Entry)
    requires Synced(k, e, m) && Before(k) == At(start) && e.updates + 1 < e.reset_at + U32
    ensures HandleAll(e, DeleteRequests(k)) == Live(f) && DeletedFrom(e, start, f)
  {
    f := DeletionInEditor(e, m, start);
  }

  lemma DeletionInEditor(e: Entry, m: nat, start: nat) returns (f: Entry)
    requires e.cursor <= |e.text| < LIMIT && start < e.cursor && e.pending == NOTHING
    requires e.reset_at <= m <= e.updates && e.updates + 1 < e.reset_at + U32
    ensures HandleAll(e, Deletion(start, e.cursor, Serial(m))) == Live(f) && DeletedFrom(e, start, f)
  {
    var g := e.(pending := Pending(0, 0, start, e.cursor - start, false));
    HandledAsDeletion(e, g, start, Serial(m));
    HandleCommit(g, Serial(m), []);
    f := CommitDeletion(g, m, start);
  }

  lemma HandledAsDeletion(e: Entry, f: Entry, start: nat, serial: nat)
    requires e.cursor <= |e.text| < LIMIT && start < e.cursor && e.pending == NOTHING
    requires f == e.(pending := Pending(0, 0, start, e.cursor - start, false))
    ensures HandleAll(e, Deletion(start, e.cursor, serial)) == Handle(f, CommitEvent(serial, []))
  {
    var requests := Deletion(start, e.cursor, serial);
    Announced(e, start);
    HandledInTwo(e, f, requests);
  }

  lemma HandledInTwo(e: Entry, f: Entry, requests: seq<Request>)
    requires e.cursor <= |e.text| && |requests| == 2 && requests[0].DeleteEvent?
    requires f == DeleteSurrounding(e, requests[0].index, requests[0].length)
    ensures HandleAll(e, requests) == Handle(f, requests[1])
  {
    HandleTwo(e, requests[0], requests[1]);
    assert requests == [requests[0], requests[1]];
  }

  lemma HandleCommit(e: Entry, serial: nat, t: Text)
    requires e.cursor <= |e.text|
    ensures Handle(e, CommitEvent(serial, t)) == CommitString(e, serial, t)
  {
  }

  /** ... and the texts, exactly when the cursor was at the end. */
  lemma DeletionKeepsSyncIff(k: Keyboard, e: Entry, m: nat)
    requires Synced(k, e, m) && Before(k).At? && e.updates + 1 < e.reset_at + U32
    ensures var o := HandleAll(e, DeleteRequests(k));
      o.Live? && (Synced(Deleted(k), o.entry, m) <==> e.cursor == |e.text|)
  {
    var f := DeletionHandled(k, e, m, Before(k).p);
    DeletedExactIff(k);
  }

  // ------------------------------------------------------------------ typing at the end

  /** Pressing a letter, the space bar or backspace. */
  datatype Act = Type(letters: Text) | Space | Erase

  const BLANK: Text := [0x20]

  function Pressed(k: Keyboard, act: Act): (r: (Keyboard, seq<Request>))
    requires Valid(k)
    ensures Valid(r.0)
  {
    match act
    case Type(letters) =>
      var p := k.preedit + letters;
      (k.(preedit := p), [PreeditEvent(k.serial, p, p)])
    case Space =>
      var l := k.(preedit := k.preedit + BLANK);
      (CommittedKeys(l), CommitRequests(l))
    case Erase =>
      if k.preedit == [] then (Deleted(k), DeleteRequests(k))
      else
        var p := k.preedit[..|k.preedit| - 1];
        (k.(preedit := p), [PreeditEvent(k.serial, p, p)])
  }

  /** Bytes a run of presses may add to text and preedit. */
  function Typed(acts: seq<Act>): nat {
    if acts == [] then 0
    else Typed(acts[1..]) + match acts[0] case Type(letters) => |letters| case Space => 1 case Erase => 0
  }

  /** The keyboard after a run of presses, and all that it has asked of the editor. */
  function AllPressed(k: Keyboard, acts: seq<Act>): (r: (Keyboard, seq<Request>))
    requires Valid(k)
    ensures Valid(r.0)
    decreases |acts|
  {
    if acts == [] then (k, [])
    else
      var (l, requests) := Pressed(k, acts[0]);
      var (last, more) := AllPressed(l, acts[1..]);
      (last, requests + more)
  }

  predicate AtEnd(k: Keyboard, e: Entry, m: nat) {
    Synced(k, e, m) && Shown(k, e) && e.cursor == |e.text|
  }

  lemma ShowKeepsSync(k: Keyboard, e: Entry, m: nat, p: Text)
    requires AtEnd(k, e, m) && e.updates < e.reset_at + U32
    ensures var o := HandleAll(e, [PreeditEvent(k.serial, p, p)]);
      o.Live? && AtEnd(k.(preedit := p), o.entry, m) && o.entry.text == e.text
      && o.entry.updates == e.updates + 1 && o.entry.reset_at == e.reset_at
  {
    HandleOne(e, PreeditEvent(k.serial, p, p));
    PreeditOutcome(e, m, p);
  }

  lemma EraseKeepsSync(k: Keyboard, e: Entry, m: nat)
    requires AtEnd(k, e, m) && k.preedit == [] && e.updates + 1 < e.reset_at + U32
    ensures var o := HandleAll(e, DeleteRequests(k));
      o.Live? && AtEnd(Deleted(k), o.entry, m) && |o.entry.text| <= |e.text|
      && o.entry.updates <= e.updates + 2 && o.entry.reset_at == e.reset_at
  {
    match Before(k)
    case Nowhere =>
    case At(start) =>
      var f := DeletionHandled(k, e, m, start);
      DeletionKeepsSyncIff(k, e, m);
  }

  lemma ActKeepsSync(k: Keyboard, e: Entry, m: nat, act: Act)
    requires AtEnd(k, e, m) && e.updates + 1 < e.reset_at + U32
    requires |e.text| + |k.preedit| + Typed([act]) < LIMIT
    ensures var (l, requests) := Pressed(k, act);
      var o := HandleAll(e, requests);
      && o.Live? && AtEnd(l, o.entry, m)
      && |o.entry.text| + |l.preedit| <= |e.text| + |k.preedit| + Typed([act])
      && o.entry.updates <= e.updates + 2 && o.entry.reset_at == e.reset_at
  {
    assert [act][1..] == [];
    match act
    case Type(letters) =>
      ShowKeepsSync(k, e, m, k.preedit + letters);
    case Space =>
      SpaceKeepsSync(k, e, m);
    case Erase =>
      if k.preedit == [] {
        EraseKeepsSync(k, e, m);
      } else {
        ShowKeepsSync(k, e, m, k.preedit[..|k.preedit| - 1]);
      }
  }

  lemma SpaceKeepsSync(k: Keyboard, e: Entry, m: nat)
    requires AtEnd(k, e, m) && e.updates < e.reset_at + U32
    requires |e.text| + |k.preedit| + 1 < LIMIT
    ensures var l := k.(preedit := k.preedit + BLANK);
      var o := HandleAll(e, CommitRequests(l));
      && o.Live? && AtEnd(CommittedKeys(l), o.entry, m)
      && |o.entry.text| == |e.text| + |k.preedit| + 1 && CommittedKeys(l).preedit == []
      && o.entry.updates == e.updates + 1 && o.entry.reset_at == e.reset_at
  {
    var l := k.(preedit := k.preedit + BLANK);
    HandleTwo(e, CursorEvent(0, 0), CommitEvent(l.serial, l.preedit));
    assert CursorPosition(e, 0, 0) == e;
    CommitOutcome(e, m, l.preedit);
  }

  lemma {:induction false} PressesStaySynced(k: Keyboard, e: Entry, m: nat, acts: seq<Act>)
    requires AtEnd(k, e, m) && e.updates + 2 * |acts| < e.reset_at + U32
    requires |e.text| + |k.preedit| + Typed(acts) < LIMIT
    ensures var (l, requests) := AllPressed(k, acts);
      var o := HandleAll(e, requests);
      o.Live? && AtEnd(l, o.entry, m)
    decreases |acts|
  {
    if acts != [] {
      assert [acts[0]][1..] == [] && Typed(acts) == Typed([acts[0]]) + Typed(acts[1..]);
      ActKeepsSync(k, e, m, acts[0]);
      var (l, requests) := Pressed(k, acts[0]);
      var f := HandleAll(e, requests).entry;
      PressesStaySynced(l, f, m, acts[1..]);
      HandleParts(e, requests, AllPressed(l, acts[1..]).1);
    }
  }

  /** Typing and erasing at the end of the text, however long: what the keyboard asks is
      a run of the editor that keeps its text equal to the shadow, and whose
      assertions hold. */
  lemma TypingStaysSynced(k: Keyboard, e: Entry, m: nat, acts: seq<Act>)
    requires AtEnd(k, e, m) && e.updates + 2 * |acts| < e.reset_at + U32
    requires |e.text| + |k.preedit| + Typed(acts) < LIMIT
    ensures var (l, requests) := AllPressed(k, acts);
      var o := Run(e, Messages(requests));
      o.Live? && AtEnd(l, o.entry, m)
  {
    PressesStaySynced(k, e, m, acts);
    RunOfMessages(e, AllPressed(k, acts).1);
  }

  // ------------------------------------------------------------- erasing from the preedit

  /** The keyboard's backspace takes one byte off the preedit; text is left exactly
      when the last character has just that byte. */
  lemma EraseLeavesTextIff(p: Text)
    requires WellFormed(p) && p != []
    ensures WellFormed(p[..|p| - 1]) <==> p[|p| - 1] < 0x80
  {
    var i := |p| - 1;
    assert p[i..] == [p[i]];
    LoneByte(p[i]);
    if WellFormed(p[..i]) {
      PrefixBoundary(p, i);
      WellFormedSplit(p, i);
    }
    if p[i] < 0x80 {
      WellFormedSplit(p, i);
    }
  }

  lemma LoneByte(b: Byte)
    ensures WellFormed([b]) ==> b < 0x80
    ensures b < 0x80 ==> !Continues(b)
  {
    if WellFormed([b]) {
      FirstCharacter([b]);
    }
  }

  // ------------------------------------------------------------------------ the object

  class VirtualKeyboard {
    var preedit_string: Text
    var surrounding: Shadow
    var serial: nat
    /** Requests sent to the editor. */
    var sent: seq<Request>

    ghost function Value(): Keyboard
      reads this
    {
      Keyboard(preedit_string, surrounding, serial)
    }

    /** A context is activated. */
    constructor ()
      ensures Value() == Keyboard([], NoShadow, 0) && sent == []
    {
      preedit_string, surrounding, serial, sent := [], NoShadow, 0, [];
    }

    method CommitPreedit()
      requires Valid(Value())
      modifies this`preedit_string, this`surrounding, this`sent
      ensures Value() == CommittedKeys(old(Value())) && sent == old(sent) + CommitRequests(old(Value()))
    {
      if preedit_string == [] {
        return;
      }
      sent := sent + [CursorEvent(0, 0)];
      sent := sent + [CommitEvent(serial, preedit_string)];
      if surrounding.Shadow? {
        var text := surrounding.text[..surrounding.cursor] + preedit_string + surrounding.text[surrounding.cursor..];
        surrounding := Shadow(text, surrounding.cursor + |preedit_string|);
      } else {
        surrounding := Shadow(preedit_string, |preedit_string|);
      }
      preedit_string := [];
    }

    method SendPreedit()
      modifies this`sent
      ensures sent == old(sent) + [PreeditEvent(serial, preedit_string, preedit_string)]
    {
      sent := sent + [PreeditEvent(serial, preedit_string, preedit_string)];
    }

    method DeleteBeforeCursor()
      requires Valid(Value())
      modifies this`surrounding, this`sent
      ensures Value() == Deleted(old(Value())) && sent == old(sent) + DeleteRequests(old(Value()))
    {
      if surrounding.NoShadow? {
        return;
      }
      var start := FindPrevChar(surrounding.text, surrounding.cursor);
      if start.Nowhere? {
        return;
      }
      var end := surrounding.cursor;
      sent := sent + [DeleteEvent(start.p - end, end - start.p)];
      sent := sent + [CommitEvent(serial, [])];
      var text := surrounding.text;
      if end < |text| {
        text := text[..start.p] + text[end..] + text[start.p + |text| - end..];
      } else {
        text := text[..start.p];
      }
      surrounding := Shadow(text, start.p);
    }

    /** A letter, space or backspace key is pressed. */
    method Press(act: Act)
      requires Valid(Value())
      modifies this`preedit_string, this`surrounding, this`sent
      ensures Value() == Pressed(old(Value()), act).0 && sent == old(sent) + Pressed(old(Value()), act).1
    {
      match act
      case Type(letters) =>
        preedit_string := preedit_string + letters;
        SendPreedit();
      case Space =>
        preedit_string := preedit_string + BLANK;
        CommitPreedit();
      case Erase =>
        if preedit_string == [] {
          DeleteBeforeCursor();
        } else {
          preedit_string := preedit_string[..|preedit_string| - 1];
          SendPreedit();
        }
    }

    /** The editor's state arrives. */
    method Refresh(text: Text, cursor: nat, serial: nat)
      requires cursor <= |text|
      modifies this`surrounding, this`serial
      ensures Valid(Value()) && Value() == Keyboard(old(preedit_string), Shadow(text, cursor), serial)
    {
      surrounding := Shadow(text, cursor);
      this.serial := serial;
    }
  }

  // ------------------------------------------------------------ the editor's state arrives

  /** The keyboard once it has received what the editor sent last. */
  function Refreshed(k: Keyboard, e: Entry): Keyboard
    requires e.told.Told?
  {
    k.(shadow := Shadow(e.told.text, e.told.cursor), serial := Serial(e.updates))
  }

  /** After any run of an editor since its creation, its last state synchronises a
      keyboard exactly when no cursor key has moved the cursor since it was sent, and
      nothing is selected or announced. */
  lemma RefreshSyncsIff(k: Keyboard, text: Text, events: seq<Event>)
    requires Run(Created(text), events).Live?
    requires var f := Run(Created(text), events).entry; f.told.Told? && |f.text| < LIMIT
    ensures var f := Run(Created(text), events).entry;
      Synced(Refreshed(k, f), f, f.updates) <==> f.told.cursor == f.cursor == f.anchor && f.pending == NOTHING
  {
    RunTold(Created(text), events);
    RunKeepsOrder(Created(text), events);
  }

  /** So what is typed next is put in at the editor's cursor, and both sides agree. */
  lemma RefreshThenCommit(k: Keyboard, text: Text, events: seq<Event>, p: Text)
    requires Run(Created(text), events).Live?
    requires var f := Run(Created(text), events).entry;
      && f.told.Told? && f.anchor == f.cursor == f.told.cursor && |f.text| + |p| < LIMIT && f.pending == NOTHING
      && f.preedit == Preedit(p, p) && f.updates < f.reset_at + U32
    ensures var f := Run(Created(text), events).entry;
      var l := Refreshed(k, f).(preedit := p);
      var o := HandleAll(f, CommitRequests(l));
      && o.Live? && Valid(l) && CommittedKeys(l).shadow == Shadow(o.entry.text, o.entry.cursor)
      && o.entry.text == Spliced(f.text, f.cursor, f.cursor, p)
  {
    var f := Run(Created(text), events).entry;
    RefreshSyncsIff(k, text, events);
    CommitKeepsSync(Refreshed(k, f).(preedit := p), f, f.updates);
  }
}
