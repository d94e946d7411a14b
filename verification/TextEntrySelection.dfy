/**
 What becomes of a selection in clients/editor.c: input replaces it, cursor keys make it
 or drop it. Stated on bytes and places, for any text that fits.
 */
module TextEntrySelection {
  import opened Numbers
  import opened Utf8
  import opened TextEntry
  import opened TextEntryRuns

  /** Cursor and anchor are in a text of ordinary length. */
  predicate Placed(e: Entry) {
    e.cursor <= |e.text| < LIMIT && e.anchor <= |e.text|
  }

  // -------------------------------------------------------------------- input

  /** Where an offset puts the cursor or anchor: behind the end of text put in at start,
      or, counting back from -1, before its start. */
  function Landing(start: nat, length: nat, offset: int): int {
    if offset >= 0 then start + length + offset else start + 1 + offset
  }

  /** What deleting the selection leaves. */
  lemma SelectionDeleted(e: Entry) returns (f: Entry)
    requires Placed(e)
    ensures DeleteSelected(e) == Live(f)
    ensures f.text == e.text[..SelectionStart(e)] + e.text[SelectionEnd(e)..]
    ensures f.cursor == f.anchor == SelectionStart(e)
    ensures f.preedit == e.preedit && f.pending == e.pending
  {
    if e.anchor == e.cursor {
      assert e.text[..e.cursor] + e.text[e.cursor..] == e.text;
    } else {
      DeleteOutcome(e, SelectionStart(e), SelectionEnd(e) - SelectionStart(e));
    }
    f := DeleteSelected(e).entry;
  }

  lemma InsertedAt(f: Entry, t: Text, cursor: int, anchor: int) returns (g: Entry)
    requires f.cursor <= |f.text| && |f.text| + |t| < LIMIT && f.preedit.NoPreedit?
    requires 0 <= Landing(f.cursor, |t|, cursor) <= |f.text| + |t| && 0 <= Landing(f.cursor, |t|, anchor) < U32
    ensures Insert(f, t, cursor, anchor) == Live(g)
    ensures g.text == f.text[..f.cursor] + t + f.text[f.cursor..]
    ensures g.cursor == Landing(f.cursor, |t|, cursor) && g.anchor == Landing(f.cursor, |t|, anchor)
    ensures g.preedit == f.preedit
  {
    g := Insert(f, t, cursor, anchor).entry;
  }

  lemma CutAndPut(s: Text, i: nat, j: nat, t: Text)
    requires i <= j <= |s|
    ensures var r := s[..i] + s[j..]; r[..i] + t + r[i..] == s[..i] + t + s[j..]
  {
    var r := s[..i] + s[j..];
    assert r[..i] == s[..i] && r[i..] == s[j..];
  }

  /** A commit puts its text in place of the selection, and cursor and anchor where its
      offsets say. */
  lemma CommitReplacesSelection(e: Entry, serial: nat, t: Text)
    requires Placed(e) && Passes(e, serial) && |e.text| + |t| < LIMIT
    requires e.pending.delete_length == 0 && !e.pending.invalid_delete
    requires var i, j := Min(e.cursor, e.anchor), Max(e.cursor, e.anchor);
      && 0 <= Landing(i, |t|, e.pending.cursor) <= |e.text| - (j - i) + |t|
      && 0 <= Landing(i, |t|, e.pending.anchor) < U32
    ensures var i, j := Min(e.cursor, e.anchor), Max(e.cursor, e.anchor);
      var o := CommitString(e, serial, t);
      && o.Live? && o.entry.text == e.text[..i] + t + e.text[j..]
      && o.entry.cursor == Landing(i, |t|, e.pending.cursor) && o.entry.anchor == Landing(i, |t|, e.pending.anchor)
      && o.entry.preedit.NoPreedit? && o.entry.pending == NOTHING
  {
    var f := SelectionDeleted(e.(preedit := NoPreedit));
    CutAndPut(e.text, SelectionStart(e), SelectionEnd(e), t);
    var g := InsertedAt(f, t, e.pending.cursor, e.pending.anchor);
  }

  /** Without offsets the cursor ends up behind the text, and nothing is selected. */
  lemma PlainCommitReplacesSelection(e: Entry, serial: nat, t: Text)
    requires Sound(e) && Passes(e, serial) && |e.text| + |t| < LIMIT && e.pending == NOTHING
    ensures var i, j := Min(e.cursor, e.anchor), Max(e.cursor, e.anchor);
      var o := CommitString(e, serial, t);
      && o.Live? && o.entry.text == e.text[..i] + t + e.text[j..]
      && o.entry.cursor == o.entry.anchor == i + |t|
  {
    CommitReplacesSelection(e, serial, t);
  }

  /** Text sent to replace bytes around the cursor does so, whatever is selected. */
  lemma SurroundingReplaced(e: Entry, serial: nat, index: int, length: nat, t: Text)
    requires Placed(e) && Passes(e, serial) && |e.text| + |t| < LIMIT && e.pending == NOTHING
    requires 0 < length && 0 <= e.cursor + index <= e.cursor <= e.cursor + index + length <= |e.text|
    ensures var i := e.cursor + index;
      var o := CommitString(DeleteSurrounding(e, index, length), serial, t);
      && o.Live? && o.entry.text == e.text[..i] + t + e.text[i + length..]
      && o.entry.cursor == o.entry.anchor == i + |t| && o.entry.pending == NOTHING
  {
    var i: nat := e.cursor + index;
    var d := DeleteSurrounding(e, index, length);
    assert d == e.(pending := Pending(0, 0, i, length, false));
    DeleteOutcome(d.(preedit := NoPreedit), i, length);
    var f := AfterDelete(d.(preedit := NoPreedit), i, length);
    CutAndPut(e.text, i, i + length, t);
    assert f.text == e.text[..i] + e.text[i + length..] && f.cursor == i;
    var g := InsertedAt(f, t, 0, 0);
  }

  /** An announced deletion is taken up exactly when it lies within the text; otherwise
      the commit after it is dropped, and the announcement with it. */
  lemma AnnouncementTakenIff(e: Entry, serial: nat, index: int, length: nat, t: Text)
    requires Placed(e) && Passes(e, serial) && -LIMIT <= index < LIMIT && length < U32
    ensures var d := DeleteSurrounding(e, index, length);
      && (!d.pending.invalid_delete <==> 0 <= e.cursor + index && e.cursor + index + length <= |e.text|)
      && (d.pending.invalid_delete ==> CommitString(d, serial, t) == Live(e.(pending := NOTHING)))
  {
  }

  /** A preedit takes the selection out, and is shown in its place ... */
  lemma PreeditReplacesSelection(e: Entry, serial: nat, t: Text, commit: Text)
    requires Placed(e) && Passes(e, serial)
    requires e.pending.delete_length == 0 && !e.pending.invalid_delete
    ensures var i, j := Min(e.cursor, e.anchor), Max(e.cursor, e.anchor);
      var o := PreeditString(e, serial, t, commit);
      && o.Live? && o.entry.text == e.text[..i] + e.text[j..]
      && o.entry.cursor == o.entry.anchor == i && o.entry.preedit == Preedit(t, commit)
      && o.entry.pending == NOTHING
  {
    var f := SelectionDeleted(e);
  }

  lemma ResetOutcome(e: Entry)
    requires e.cursor <= |e.text| && |e.text| + CommitLength(e) < LIMIT
    ensures var t := if e.preedit.Preedit? then e.preedit.commit else [];
      var f := CommitAndReset(e).entry;
      && f.text == e.text[..e.cursor] + t + e.text[e.cursor..] && f.cursor == e.cursor + |t|
      && f.anchor == (if e.preedit.Preedit? then f.cursor else e.anchor)
      && f.preedit.NoPreedit? && f.reset_at == f.updates > e.updates
  {
    if e.preedit.Preedit? {
      var g := InsertedAt(e.(preedit := NoPreedit), e.preedit.commit, 0, 0);
    } else {
      assert e.text[..e.cursor] + [] + e.text[e.cursor..] == e.text;
    }
  }

  /** ... until a key or a touch puts the text it stands for there instead. */
  lemma PreeditThenReset(e: Entry, serial: nat, t: Text, commit: Text)
    requires Placed(e) && Passes(e, serial) && |e.text| + |commit| < LIMIT
    requires e.pending.delete_length == 0 && !e.pending.invalid_delete
    ensures var i, j := Min(e.cursor, e.anchor), Max(e.cursor, e.anchor);
      var o := PreeditString(e, serial, t, commit);
      && o.Live?
      && var f := CommitAndReset(o.entry).entry;
         && f.text == e.text[..i] + commit + e.text[j..] && f.cursor == f.anchor == i + |commit|
         && f.preedit.NoPreedit?
  {
    PreeditReplacesSelection(e, serial, t, commit);
    var f := PreeditString(e, serial, t, commit).entry;
    CutAndPut(e.text, SelectionStart(e), SelectionEnd(e), commit);
    ResetOutcome(f);
  }

  /** g is f with text put in at the cursor, and nothing selected. */
  predicate PutIn(f: Entry, t: Text, g: Entry)
    requires f.cursor <= |f.text|
  {
    g.text == f.text[..f.cursor] + t + f.text[f.cursor..] && g.cursor == g.anchor == f.cursor + |t|
  }

  /** A paste, a symbol and a key put their text in at the cursor, and do not replace what
      is selected; a key does so after the preedit's text. */
  lemma KeysPutIn(e: Entry, t: Text)
    requires e.cursor <= |e.text| && |e.text| + CommitLength(e) + |t| < LIMIT
    ensures Step(e, Paste(t)).Live? && PutIn(e, t, Step(e, Paste(t)).entry)
    ensures Step(e, SymInsert(t)).Live? && PutIn(e, t, Step(e, SymInsert(t)).entry)
    ensures Step(e, KeyInsertEvent(t)).Live? && PutIn(CommitAndReset(e).entry, t, Step(e, KeyInsertEvent(t)).entry)
  {
    InsertOutcome(e, t);
    ResetOutcome(e);
    InsertOutcome(CommitAndReset(e).entry, t);
  }

  // ------------------------------------------------------------------- moving

  /** From one place to another over just one carriage return. */
  predicate OverReturnBack(s: Text, from: nat, to: nat) {
    to <= from <= |s|
    && if to < from then s[to] == RETURN && forall k | to < k < from :: s[k] != RETURN
       else forall k | 0 <= k < from :: s[k] != RETURN
  }

  predicate OverReturnOn(s: Text, from: nat, to: nat) {
    from <= to <= |s|
    && if from < to then s[to - 1] == RETURN && forall k | from <= k < to - 1 :: s[k] != RETURN
       else forall k | from <= k < |s| :: s[k] != RETURN
  }

  /** The Up and Down keys lead to the last return before the cursor, and behind the
      first from the cursor on; where there is none they stay. */
  lemma UpAndDownMove(e: Entry, shift: bool)
    requires e.cursor <= |e.text|
    ensures OverReturnBack(e.text, e.cursor, KeysymMove(e, Up, shift).cursor)
    ensures OverReturnOn(e.text, e.cursor, KeysymMove(e, Down, shift).cursor)
    ensures var f := CommitAndReset(e).entry;
      && OverReturnBack(f.text, f.cursor, KeyMove(e, Up, shift).cursor)
      && OverReturnOn(f.text, f.cursor, KeyMove(e, Down, shift).cursor)
  {
    MoveOverReturn(e.text, e.cursor);
    var f := CommitAndReset(e).entry;
    MoveOverReturn(f.text, f.cursor);
  }

  lemma MoveOverReturn(s: Text, cursor: nat)
    requires cursor <= |s|
    ensures OverReturnBack(s, cursor, MoveUp(s, cursor)) && OverReturnOn(s, cursor, MoveDown(s, cursor))
  {
  }

  /** Shift selects: the anchor stays behind. Without it nothing is selected, except that
      the Left and Right keys leave a selection alone when they find no character. */
  lemma ShiftSelects(e: Entry, d: Direction)
    requires e.cursor <= |e.text|
    ensures KeysymMove(e, d, true).anchor == e.anchor && KeyMove(e, d, true).anchor == CommitAndReset(e).entry.anchor
    ensures var m := KeysymMove(e, d, false); m.anchor == m.cursor
    ensures var f, m := CommitAndReset(e).entry, KeyMove(e, d, false);
      m.anchor == if m.cursor == f.cursor && (d == Left || d == Right) then f.anchor else m.cursor
  {
  }
}
