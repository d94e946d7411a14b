/**
 The text entry object of clients/editor.c, whose handlers update its fields. Each
 handler comes to what TextEntry says of the entry's value; it returns false where
 an assertion of the editor fails.
 */
module Editor {
  import opened Utf8
  import opened Entries = TextEntry

  function Ended(ok: bool, e: Entry): Outcome {
    if ok then Live(e) else Aborted
  }

  // ------------------------------------------------------------- line by line moves

  method FindReturn(s: Text, from: nat) returns (q: Position)
    requires from <= |s|
    ensures q == ReturnFrom(s, from)
  {
    var i := from;
    while i < |s| && s[i] != RETURN
      invariant from <= i <= |s| && ReturnFrom(s, i) == ReturnFrom(s, from)
    {
      i := i + 1;
    }
    q := if i < |s| then At(i) else Nowhere;
  }

  lemma ReturnBeforeIs(s: Text, c: nat, q: nat)
    requires q < c <= |s| && s[q] == RETURN && forall k | q < k < c :: s[k] != RETURN
    ensures ReturnBefore(s, c) == At(q)
  {
  }

  lemma ReturnFromIs(s: Text, c: nat, q: nat)
    requires c <= q < |s| && s[q] == RETURN && forall k | c <= k < q :: s[k] != RETURN
    ensures ReturnFrom(s, c) == At(q)
  {
  }

  /** Walks forward over the returns until the next one is not before the cursor. */
  method FindUp(s: Text, cursor: nat) returns (target: nat)
    requires cursor <= |s|
    ensures target == MoveUp(s, cursor)
  {
    target := cursor;
    var pos := FindReturn(s, 0);
    while pos.At?
      invariant target == cursor
      invariant pos.At? ==> pos.p < |s| && s[pos.p] == RETURN
      invariant (pos.At? ==> pos.p >= cursor) ==> ReturnBefore(s, cursor).Nowhere?
      decreases if pos.At? then |s| - pos.p else 0
    {
      if cursor <= pos.p {
        break;
      }
      var next := FindReturn(s, pos.p + 1);
      if next.Nowhere? || cursor <= next.p {
        ReturnBeforeIs(s, cursor, pos.p);
        target := pos.p;
        return;
      }
      pos := next;
    }
  }

  method FindDown(s: Text, cursor: nat) returns (target: nat)
    requires cursor <= |s|
    ensures target == MoveDown(s, cursor)
  {
    target := cursor;
    var pos := FindReturn(s, 0);
    ghost var from := 0;
    while pos.At?
      invariant from <= |s| && pos == ReturnFrom(s, from)
      invariant forall k | 0 <= k < from && k >= cursor :: s[k] != RETURN
      decreases |s| - from
    {
      if cursor <= pos.p {
        ReturnFromIs(s, cursor, pos.p);
        return pos.p + 1;
      }
      from := pos.p + 1;
      pos := FindReturn(s, pos.p + 1);
    }
  }

  method FindTarget(s: Text, cursor: nat, d: Direction) returns (target: nat, found: bool)
    requires cursor <= |s|
    ensures target == Target(s, cursor, d)
    ensures found == match d
      case Left => PrevChar(s, cursor).At?
      case Right => NextChar(s, cursor).At?
      case _ => true
  {
    target, found := cursor, true;
    match d
    case Left =>
      var q := FindPrevChar(s, cursor);
      found := q.At?;
      if found { target := q.p; }
    case Right =>
      var q := FindNextChar(s, cursor);
      found := q.At?;
      if found { target := q.p; }
    case Up =>
      target := FindUp(s, cursor);
    case Down =>
      target := FindDown(s, cursor);
  }

  // ---------------------------------------------------------------------- the object

  class TextEntry {
    var text: Text
    var cursor: nat
    var anchor: nat
    var preedit: Preedit
    var pending_commit: Pending
    var serial: nat
    var reset_serial: nat
    /** What was last sent of the text around the cursor. */
    var told: Told
    ghost var updates: nat
    ghost var reset_at: nat

    ghost function Value(): Entry
      reads this
    {
      Entry(text, cursor, anchor, preedit, pending_commit, updates, reset_at, told)
    }

    /** The serials wrap where the counts of updates do not. */
    ghost predicate Valid()
      reads this
    {
      cursor <= |text| && serial == updates % U32 && reset_serial == reset_at % U32
    }

    constructor (text: Text)
      ensures Valid() && Value() == Created(text)
    {
      this.text, cursor, anchor, preedit, pending_commit := text, |text|, |text|, NoPreedit, NOTHING;
      serial, reset_serial, updates, reset_at, told := 0, 0, 0, 0, Nothing;
    }

    method Update()
      requires Valid()
      modifies this`serial, this`updates, this`told
      ensures Valid() && Value() == Entries.Update(old(Value()))
    {
      told := Told(text, cursor, anchor);
      serial := (serial + 1) % U32;
      updates := updates + 1;
    }

    method UpdateLayout() returns (ok: bool)
      ensures ok == LayoutHolds(Value())
    {
      ok := cursor <= |text| + (if preedit.Preedit? then |preedit.text| else 0);
    }

    method InsertAtCursor(t: Text, cursorOffset: int, anchorOffset: int) returns (ok: bool)
      requires Valid() && (preedit.NoPreedit? || cursorOffset == 0)
      modifies this`text, this`cursor, this`anchor, this`serial, this`updates, this`told
      ensures Ended(ok, Value()) == Insert(old(Value()), t, cursorOffset, anchorOffset)
      ensures ok ==> Valid()
    {
      text := text[..cursor] + t + text[cursor..];
      anchor := if anchorOffset >= 0 then Wrapped(cursor + |t| + anchorOffset) else Wrapped(cursor + 1 + anchorOffset);
      cursor := if cursorOffset >= 0 then Wrapped(cursor + |t| + cursorOffset) else Wrapped(cursor + 1 + cursorOffset);
      ok := UpdateLayout();
      if ok {
        Update();
      }
    }

    method DeleteText(index: nat, length: nat) returns (ok: bool)
      requires Valid()
      modifies this`text, this`cursor, this`anchor, this`serial, this`updates, this`told
      ensures Ended(ok, Value()) == Delete(old(Value()), index, length)
      ensures ok ==> Valid()
    {
      var end := Wrapped(index + length);
      if index > |text| || end > |text| || end < length {
        return false;
      }
      text := text[..index] + text[end..];
      if cursor > end {
        cursor := cursor - length;
      } else if cursor > index {
        cursor := index;
      }
      anchor := cursor;
      ok := UpdateLayout();
      if ok {
        Update();
      }
    }

    method DeleteSelectedText() returns (ok: bool)
      requires Valid()
      modifies this`text, this`cursor, this`anchor, this`serial, this`updates, this`told
      ensures Ended(ok, Value()) == DeleteSelected(old(Value()))
      ensures ok ==> Valid()
    {
      var start := if anchor < cursor then anchor else cursor;
      var end := if anchor < cursor then cursor else anchor;
      if anchor == cursor {
        return true;
      }
      ok := DeleteText(start, end - start);
      if ok {
        anchor := cursor;
      }
    }

    method DeletePendingText() returns (ok: bool)
      requires Valid()
      modifies this`text, this`cursor, this`anchor, this`serial, this`updates, this`told
      ensures Ended(ok, Value()) == DeletePending(old(Value()))
      ensures ok ==> Valid()
    {
      if pending_commit.delete_length != 0 {
        ok := DeleteText(pending_commit.delete_index, pending_commit.delete_length);
      } else {
        ok := DeleteSelectedText();
      }
    }

    method CommitPreeditAndReset()
      requires Valid()
      modifies this
      ensures Valid() && Value() == CommitAndReset(old(Value())).entry
    {
      var shown := preedit;
      preedit := NoPreedit;
      if shown.Preedit? {
        var ok := InsertAtCursor(shown.commit, 0, 0);
      }
      Update();
      reset_serial := serial;
      reset_at := updates;
    }

    // -------------------------------------------------------- from the input method

    method PassesSerial(s: nat) returns (passes: bool)
      requires Valid()
      ensures passes == Passes(Value(), s)
    {
      passes := (serial - s) % U32 <= (serial - reset_serial) % U32;
    }

    method TakeCommitString(s: nat, t: Text) returns (ok: bool)
      requires Valid()
      modifies this
      ensures Ended(ok, Value()) == CommitString(old(Value()), s, t)
      ensures ok ==> Valid()
    {
      var passes := PassesSerial(s);
      if !passes {
        return true;
      }
      if pending_commit.invalid_delete {
        pending_commit := NOTHING;
        return true;
      }
      preedit := NoPreedit;
      ok := DeletePendingText();
      if ok {
        ok := InsertAtCursor(t, pending_commit.cursor, pending_commit.anchor);
      }
      if ok {
        pending_commit := NOTHING;
      }
    }

    method TakePreeditString(s: nat, t: Text, commit: Text) returns (ok: bool)
      requires Valid()
      modifies this
      ensures Ended(ok, Value()) == PreeditString(old(Value()), s, t, commit)
      ensures ok ==> Valid()
    {
      var passes := PassesSerial(s);
      if !passes || pending_commit.invalid_delete {
        pending_commit := NOTHING;
        return true;
      }
      ok := DeletePendingText();
      if ok {
        preedit := Preedit(t, commit);
        ok := UpdateLayout();
      }
      if ok {
        pending_commit := NOTHING;
        Update();
      }
    }

    method TakeDeleteSurrounding(index: int, length: nat)
      requires Valid()
      modifies this`pending_commit
      ensures Valid() && Value() == DeleteSurrounding(old(Value()), index, length)
    {
      var start := Wrapped(cursor + index);
      pending_commit := pending_commit.(delete_index := start, delete_length := length, invalid_delete := false);
      if start > |text| || length > |text| || Wrapped(start + length) > |text| {
        pending_commit := pending_commit.(invalid_delete := true);
      }
    }

    method TakeCursorPosition(index: int, anchorIndex: int)
      requires Valid()
      modifies this`pending_commit
      ensures Valid() && Value() == CursorPosition(old(Value()), index, anchorIndex)
    {
      pending_commit := pending_commit.(cursor := index, anchor := anchorIndex);
    }

    method EnterSurface()
      requires Valid()
      modifies this
      ensures Valid() && Value() == Enter(old(Value()))
    {
      Update();
      reset_serial := serial;
      reset_at := updates;
    }

    method MoveByKeysym(d: Direction, shift: bool)
      requires Valid()
      modifies this`cursor, this`anchor
      ensures Valid() && Value() == KeysymMove(old(Value()), d, shift)
    {
      var target, found := FindTarget(text, cursor, d);
      cursor := target;
      if !shift {
        anchor := cursor;
      }
    }

    method BackspaceByKeysym() returns (ok: bool)
      requires Valid()
      modifies this
      ensures Ended(ok, Value()) == KeysymBackspace(old(Value()))
      ensures ok ==> Valid()
    {
      CommitPreeditAndReset();
      var start := FindPrevChar(text, cursor);
      if start.Nowhere? {
        return true;
      }
      var end := FindNextChar(text, start.p);
      ok := DeleteText(start.p, end.p - start.p);
    }

    // ------------------------------------------------------------- from the keyboard

    method MoveByKey(d: Direction, shift: bool)
      requires Valid()
      modifies this
      ensures Valid() && Value() == KeyMove(old(Value()), d, shift)
    {
      CommitPreeditAndReset();
      var target, found := FindTarget(text, cursor, d);
      cursor := target;
      if found && !shift {
        anchor := cursor;
      }
    }

    method BackspaceByKey() returns (ok: bool)
      requires Valid()
      modifies this
      ensures Ended(ok, Value()) == KeyBackspace(old(Value()))
      ensures ok ==> Valid()
    {
      CommitPreeditAndReset();
      var start := FindPrevChar(text, cursor);
      if start.Nowhere? {
        return true;
      }
      ok := DeleteText(start.p, cursor - start.p);
    }

    method DeleteByKey() returns (ok: bool)
      requires Valid()
      modifies this
      ensures Ended(ok, Value()) == KeyDelete(old(Value()))
      ensures ok ==> Valid()
    {
      CommitPreeditAndReset();
      var end := FindNextChar(text, cursor);
      if end.Nowhere? {
        return true;
      }
      ok := DeleteText(cursor, end.p - cursor);
    }

    method InsertByKey(t: Text) returns (ok: bool)
      requires Valid()
      modifies this
      ensures Ended(ok, Value()) == KeyInsert(old(Value()), t)
      ensures ok ==> Valid()
    {
      CommitPreeditAndReset();
      ok := InsertAtCursor(t, 0, 0);
    }

    // -------------------------------------------------------------------- clipboard

    method CopyOrCut(cut: bool) returns (ok: bool, selected: Text)
      requires Valid() && anchor <= |text|
      modifies this`text, this`cursor, this`anchor, this`serial, this`updates, this`told
      ensures selected == Selected(old(Value()))
      ensures Ended(ok, Value()) == if cut then Cut(old(Value())) else Live(old(Value()))
      ensures ok ==> Valid()
    {
      ok, selected := true, [];
      if cursor != anchor {
        var start := if cursor < anchor then cursor else anchor;
        var end := if cursor < anchor then anchor else cursor;
        selected := text[start..end];
        if cut {
          ok := DeleteText(start, end - start);
        }
      }
    }

    method PasteText(pasted: Text) returns (ok: bool)
      requires Valid()
      modifies this`text, this`cursor, this`anchor, this`serial, this`updates, this`told
      ensures Ended(ok, Value()) == Insert(old(Value()), pasted, 0, 0)
      ensures ok ==> Valid()
    {
      ok := InsertAtCursor(pasted, 0, 0);
    }
  }
}
