/**
 The text entry of clients/editor.c as a value: its text, cursor and anchor, the
 preedit shown at the cursor, what the input method has announced for its next
 commit, and the serials that tell fresh input from stale.
 */
module TextEntry {
  import opened Numbers
  import opened Utf8

  /** uint32_t wraps here. */
  const U32 := 0x1_0000_0000

  function Wrapped(n: int): nat {
    if 0 <= n < U32 then n else n % U32
  }

  /** Lengths must fit the int fields and variables that hold them. */
  const LIMIT := 0x8000_0000

  datatype Preedit = NoPreedit | Preedit(text: Text, commit: Text)

  datatype Pending = Pending(cursor: int, anchor: int, delete_index: nat, delete_length: nat, invalid_delete: bool)

  const NOTHING := Pending(0, 0, 0, 0, false)

  /** The text, cursor and anchor the input method was last told of. */
  datatype Told = Nothing | Told(text: Text, cursor: nat, anchor: nat)

  /** updates counts the states sent to the input method, reset_at is its value at
      the last reset; the serials on the wire are these modulo 2^32. */
  datatype Entry = Entry(text: Text, cursor: nat, anchor: nat, preedit: Preedit, pending: Pending,
                         updates: nat, reset_at: nat, told: Told)

  /** The entry as it is created. */
  function Created(text: Text): Entry {
    Entry(text, |text|, |text|, NoPreedit, NOTHING, 0, 0, Nothing)
  }

  /** An assertion of the editor may end it. */
  datatype Outcome = Live(entry: Entry) | Aborted

  function PreeditLength(e: Entry): nat {
    if e.preedit.Preedit? then |e.preedit.text| else 0
  }

  /** The assertion made whenever the layout is updated. */
  predicate LayoutHolds(e: Entry) {
    e.cursor <= |e.text| + PreeditLength(e)
  }

  function CheckLayout(e: Entry): Outcome {
    if LayoutHolds(e) then Live(e) else Aborted
  }

  /** The state is sent, with the next serial. */
  function Update(e: Entry): Entry {
    e.(updates := e.updates + 1, told := Told(e.text, e.cursor, e.anchor))
  }

  function Updated(o: Outcome): Outcome {
    if o.Live? then Live(Update(o.entry)) else Aborted
  }

  /** Where an offset from the end (or, when negative, the start) of text of the
      given length lands, as a uint32_t. */
  function Offset(cursor: nat, length: nat, offset: int): nat {
    Wrapped(if offset >= 0 then cursor + length + offset else cursor + 1 + offset)
  }

  function Insert(e: Entry, t: Text, cursor: int, anchor: int): (o: Outcome)
    requires e.cursor <= |e.text|
    ensures cursor == 0 ==> o.Live?
    ensures o.Live? && (cursor == 0 || e.preedit.NoPreedit?) ==> o.entry.cursor <= |o.entry.text|
  {
    Updated(CheckLayout(e.(text := Spliced(e.text, e.cursor, e.cursor, t),
                           anchor := Offset(e.cursor, |t|, anchor),
                           cursor := Offset(e.cursor, |t|, cursor))))
  }

  function Delete(e: Entry, index: nat, length: nat): (o: Outcome)
    ensures o.Live? && e.cursor <= |e.text| ==> o.entry.cursor <= |o.entry.text|
  {
    var end := Wrapped(index + length);
    if index > |e.text| || end > |e.text| || end < length then Aborted
    else
      var cursor := if e.cursor > end then e.cursor - length else if e.cursor > index then index else e.cursor;
      Updated(CheckLayout(e.(text := e.text[..index] + e.text[end..], cursor := cursor, anchor := cursor)))
  }

  function DeleteSelected(e: Entry): (o: Outcome)
    ensures o.Live? && e.cursor <= |e.text| ==> o.entry.cursor <= |o.entry.text|
  {
    if e.anchor == e.cursor then Live(e)
    else Delete(e, Min(e.anchor, e.cursor), Max(e.anchor, e.cursor) - Min(e.anchor, e.cursor))
  }

  function Reset(e: Entry): Entry {
    Update(e).(reset_at := e.updates + 1)
  }

  /** The preedit's text is inserted, the input method reset. */
  function CommitAndReset(e: Entry): (o: Outcome)
    requires e.cursor <= |e.text|
    ensures o.Live? && o.entry.cursor <= |o.entry.text|
  {
    if e.preedit.NoPreedit? then Live(Reset(e))
    else
      var o := Insert(e.(preedit := NoPreedit), e.preedit.commit, 0, 0);
      if o.Live? then Live(Reset(o.entry)) else Aborted
  }

  // -------------------------------------------------------- from the input method

  /** The serial test that commit and preedit events must pass. */
  predicate Passes(e: Entry, serial: nat) {
    (e.updates % U32 - serial) % U32 <= (e.updates % U32 - e.reset_at % U32) % U32
  }

  /** The announced deletion, or else the selection. */
  function DeletePending(e: Entry): (o: Outcome)
    ensures o.Live? && e.cursor <= |e.text| ==> o.entry.cursor <= |o.entry.text|
  {
    if e.pending.delete_length != 0 then Delete(e, e.pending.delete_index, e.pending.delete_length)
    else DeleteSelected(e)
  }

  function CommitString(e: Entry, serial: nat, t: Text): (o: Outcome)
    requires e.cursor <= |e.text|
    ensures o.Live? ==> o.entry.cursor <= |o.entry.text|
  {
    if !Passes(e, serial) then Live(e)
    else if e.pending.invalid_delete then Live(e.(pending := NOTHING))
    else
      var o := DeletePending(e.(preedit := NoPreedit));
      if o.Aborted? then Aborted
      else
        var o' := Insert(o.entry, t, e.pending.cursor, e.pending.anchor);
        if o'.Aborted? then Aborted else Live(o'.entry.(pending := NOTHING))
  }

  function PreeditString(e: Entry, serial: nat, t: Text, commit: Text): (o: Outcome)
    requires e.cursor <= |e.text|
    ensures o.Live? ==> o.entry.cursor <= |o.entry.text|
  {
    if !Passes(e, serial) || e.pending.invalid_delete then Live(e.(pending := NOTHING))
    else
      var o := DeletePending(e);
      if o.Aborted? then Aborted
      else Updated(CheckLayout(o.entry.(preedit := Preedit(t, commit), pending := NOTHING)))
  }

  function DeleteSurrounding(e: Entry, index: int, length: nat): Entry {
    var start := Wrapped(e.cursor + index);
    e.(pending := e.pending.(delete_index := start, delete_length := length,
         invalid_delete := start > |e.text| || length > |e.text| || Wrapped(start + length) > |e.text|))
  }

  function CursorPosition(e: Entry, index: int, anchor: int): Entry {
    e.(pending := e.pending.(cursor := index, anchor := anchor))
  }

  function Enter(e: Entry): Entry {
    Reset(e)
  }

  // ------------------------------------------------------------------------ keys

  const RETURN: Byte := 0x0D

  /** The last carriage return before c, and the first from c on. */
  function ReturnBefore(s: Text, c: nat): (q: Position)
    requires c <= |s|
    ensures q.At? ==> q.p < c && s[q.p] == RETURN && forall k | q.p < k < c :: s[k] != RETURN
    ensures q.Nowhere? ==> forall k | 0 <= k < c :: s[k] != RETURN
  {
    if c == 0 then Nowhere else if s[c - 1] == RETURN then At(c - 1) else ReturnBefore(s, c - 1)
  }

  function ReturnFrom(s: Text, c: nat): (q: Position)
    requires c <= |s|
    ensures q.At? ==> c <= q.p < |s| && s[q.p] == RETURN && forall k | c <= k < q.p :: s[k] != RETURN
    ensures q.Nowhere? ==> forall k | c <= k < |s| :: s[k] != RETURN
    decreases |s| - c
  {
    if c == |s| then Nowhere else if s[c] == RETURN then At(c) else ReturnFrom(s, c + 1)
  }

  function MoveUp(s: Text, cursor: nat): nat
    requires cursor <= |s|
  {
    var q := ReturnBefore(s, cursor);
    if q.At? then q.p else cursor
  }

  function MoveDown(s: Text, cursor: nat): nat
    requires cursor <= |s|
  {
    var q := ReturnFrom(s, cursor);
    if q.At? then q.p + 1 else cursor
  }

  datatype Direction = Left | Right | Up | Down

  /** Where a cursor key leads; keys that find nothing leave the cursor. */
  function Target(s: Text, cursor: nat, d: Direction): (target: nat)
    requires cursor <= |s|
    ensures target <= |s|
  {
    match d
    case Left => var q := PrevChar(s, cursor); if q.At? then q.p else cursor
    case Right => var q := NextChar(s, cursor); if q.At? then q.p else cursor
    case Up => MoveUp(s, cursor)
    case Down => MoveDown(s, cursor)
  }

  /** A cursor key from the input method: the anchor follows unless Shift is held. */
  function KeysymMove(e: Entry, d: Direction, shift: bool): Entry
    requires e.cursor <= |e.text|
  {
    var cursor := Target(e.text, e.cursor, d);
    e.(cursor := cursor, anchor := if shift then e.anchor else cursor)
  }

  /** A Backspace from the input method goes back one character, then measures it
      by going forward again. */
  function KeysymBackspace(e: Entry): (o: Outcome)
    requires e.cursor <= |e.text|
    ensures o.Live? ==> o.entry.cursor <= |o.entry.text|
  {
    var o := CommitAndReset(e);
    var f := o.entry;
    var start := PrevChar(f.text, f.cursor);
    if start.Nowhere? then o else Delete(f, start.p, NextChar(f.text, start.p).p - start.p)
  }

  /** Left and Right leave the anchor when they find no character; Up and Down move it. */
  function KeyMove(e: Entry, d: Direction, shift: bool): Entry
    requires e.cursor <= |e.text|
  {
    var f := CommitAndReset(e).entry;
    var cursor := Target(f.text, f.cursor, d);
    var found := match d
      case Left => PrevChar(f.text, f.cursor).At?
      case Right => NextChar(f.text, f.cursor).At?
      case _ => true;
    f.(cursor := cursor, anchor := if found && !shift then cursor else f.anchor)
  }

  /** The character before or after the cursor is deleted, if there is one. */
  function DeleteBackward(f: Entry): (o: Outcome)
    requires f.cursor <= |f.text|
    ensures o.Live? ==> o.entry.cursor <= |o.entry.text|
  {
    var start := PrevChar(f.text, f.cursor);
    if start.Nowhere? then Live(f) else Delete(f, start.p, f.cursor - start.p)
  }

  function DeleteForward(f: Entry): (o: Outcome)
    requires f.cursor <= |f.text|
    ensures o.Live? ==> o.entry.cursor <= |o.entry.text|
  {
    var end := NextChar(f.text, f.cursor);
    if end.Nowhere? then Live(f) else Delete(f, f.cursor, end.p - f.cursor)
  }

  function KeyBackspace(e: Entry): (o: Outcome)
    requires e.cursor <= |e.text|
    ensures o.Live? ==> o.entry.cursor <= |o.entry.text|
  {
    DeleteBackward(CommitAndReset(e).entry)
  }

  function KeyDelete(e: Entry): (o: Outcome)
    requires e.cursor <= |e.text|
    ensures o.Live? ==> o.entry.cursor <= |o.entry.text|
  {
    DeleteForward(CommitAndReset(e).entry)
  }

  function KeyInsert(e: Entry, t: Text): (o: Outcome)
    requires e.cursor <= |e.text|
    ensures o.Live? && o.entry.cursor <= |o.entry.text|
  {
    Insert(CommitAndReset(e).entry, t, 0, 0)
  }

  // ------------------------------------------------------------------- clipboard

  function SelectionStart(e: Entry): nat {
    Min(e.cursor, e.anchor)
  }

  function SelectionEnd(e: Entry): nat {
    Max(e.cursor, e.anchor)
  }

  function Selected(e: Entry): Text
    requires e.cursor <= |e.text| && e.anchor <= |e.text|
  {
    e.text[SelectionStart(e)..SelectionEnd(e)]
  }

  function Cut(e: Entry): (o: Outcome)
    ensures o.Live? && e.cursor <= |e.text| ==> o.entry.cursor <= |o.entry.text|
  {
    if e.cursor == e.anchor then Live(e) else Delete(e, SelectionStart(e), SelectionEnd(e) - SelectionStart(e))
  }
}
