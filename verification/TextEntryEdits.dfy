/**
 Edits of clients/editor.c that undo one another.
 */
module TextEntryEdits {
  import opened Utf8
  import opened TextEntry
  import opened TextEntryRuns

  lemma SplicedOut(s: Text, i: nat, t: Text)
    requires i <= |s|
    ensures Spliced(Spliced(s, i, i, t), i, i + |t|, []) == s
  {
    var r := Spliced(s, i, i, t);
    assert r[..i] == s[..i] && r[i + |t|..] == s[i..];
  }

  lemma SplicedBack(s: Text, i: nat, j: nat)
    requires i <= j <= |s|
    ensures Spliced(Spliced(s, i, j, []), i, i, s[i..j]) == s
  {
    var r := Spliced(s, i, j, []);
    assert r[..i] == s[..i] && r[i..] == s[j..];
  }

  /** A character with the text around it is reached by one step back. */
  lemma CharacterBack(s: Text, i: nat, c: Text)
    requires i <= |s| && Character(c)
    ensures PrevChar(Spliced(s, i, i, c), i + |c|) == At(i)
  {
    var r := Spliced(s, i, i, c);
    assert r[i..i + |c|] == c;
    assert forall k | i < k < i + |c| :: Continues(r[k]) by {
      forall k | i < k < i + |c| ensures Continues(r[k]) {
        assert r[k] == c[k - i];
      }
    }
    assert r[i] == c[0];
    PrevCharIs(r, i + |c|, i);
  }

  /** What Backspace and Delete come to when no preedit is shown. */
  lemma BackspaceOutcome(e: Entry, p: nat)
    requires e.cursor <= |e.text| < LIMIT && e.preedit.NoPreedit? && PrevChar(e.text, e.cursor) == At(p)
    ensures KeyBackspace(e) == Live(AfterDelete(Reset(e), p, e.cursor - p))
  {
    DeleteOutcome(Reset(e), p, e.cursor - p);
  }

  lemma DeleteKeyOutcome(e: Entry, p: nat)
    requires e.cursor <= |e.text| < LIMIT && e.preedit.NoPreedit? && NextChar(e.text, e.cursor) == At(p)
    ensures KeyDelete(e) == Live(AfterDelete(Reset(e), e.cursor, p - e.cursor))
  {
    DeleteForwardOutcome(Reset(e), p);
  }

  lemma DeleteForwardOutcome(f: Entry, p: nat)
    requires f.cursor <= |f.text| < LIMIT && NextChar(f.text, f.cursor) == At(p)
    ensures DeleteForward(f) == Live(AfterDelete(f, f.cursor, p - f.cursor))
  {
    DeleteOutcome(f, f.cursor, p - f.cursor);
  }

  /** Inserting a character and taking it back with Backspace. */
  lemma InsertThenBackspace(e: Entry, c: Text)
    requires Sound(e) && e.preedit.NoPreedit? && Character(c) && |e.text| + |c| < LIMIT
    ensures var inserted := Insert(e, c, 0, 0);
      && inserted.Live?
      && (var o := KeyBackspace(inserted.entry);
          o.Live? && o.entry.text == e.text && o.entry.cursor == e.cursor && o.entry.anchor == e.cursor)
  {
    InsertOutcome(e, c);
    CharacterBack(e.text, e.cursor, c);
    SplicedOut(e.text, e.cursor, c);
    BackspaceOutcome(Insert(e, c, 0, 0).entry, e.cursor);
  }

  /** Cutting the selection and pasting it. */
  lemma CutThenPaste(e: Entry)
    requires Sound(e) && e.cursor != e.anchor
    ensures Cut(e).Live?
    ensures var o := Insert(Cut(e).entry, Selected(e), 0, 0);
      o.Live? && o.entry.text == e.text && o.entry.cursor == o.entry.anchor == SelectionEnd(e)
  {
    var i, j := SelectionStart(e), SelectionEnd(e);
    CutOutcome(e);
    SplicedBack(e.text, i, j);
    InsertOutcome(Cut(e).entry, e.text[i..j]);
  }

  lemma CutOutcome(e: Entry)
    requires Sound(e) && e.cursor != e.anchor
    ensures var i, j := SelectionStart(e), SelectionEnd(e);
      Cut(e) == Live(AfterDelete(e, i, j - i))
  {
    DeleteOutcome(e, SelectionStart(e), SelectionEnd(e) - SelectionStart(e));
  }

  /** The Backspace key and the input method's Backspace delete the same bytes: the
      character before the cursor. */
  lemma BackspacesAgree(e: Entry)
    requires Sound(e) && e.preedit.NoPreedit?
    ensures KeysymBackspace(e) == KeyBackspace(e)
    ensures e.cursor > 0 ==>
      var start := PrevChar(e.text, e.cursor);
      && start.At? && Character(e.text[start.p..e.cursor])
      && KeyBackspace(e) == Live(AfterDelete(Reset(e), start.p, e.cursor - start.p))
  {
    var f := BackspaceSound(e);
    if e.cursor > 0 {
      var start := CharacterBefore(e.text, e.cursor);
      BackspaceOutcome(e, start);
    }
  }

  lemma CharacterBefore(s: Text, cursor: nat) returns (start: nat)
    requires WellFormed(s) && Boundary(s, cursor) && 0 < cursor
    ensures PrevChar(s, cursor) == At(start) && Character(s[start..cursor])
  {
    PrevThenNext(s, cursor);
    start := PrevChar(s, cursor).p;
    NextPassesCharacter(s, start);
  }

  /** The Delete key takes the character after the cursor: going right and pressing
      Backspace comes to the same. */
  lemma DeleteIsRightThenBackspace(e: Entry)
    requires Sound(e) && e.preedit.NoPreedit? && e.cursor < |e.text|
    ensures var right := KeyMove(e, Right, false);
      && KeyDelete(e).Live? && KeyBackspace(right).Live?
      && KeyDelete(e).entry.text == KeyBackspace(right).entry.text
      && KeyDelete(e).entry.cursor == KeyBackspace(right).entry.cursor == e.cursor
  {
    var end := NextChar(e.text, e.cursor).p;
    NextThenPrev(e.text, e.cursor);
    DeleteKeyOutcome(e, end);
    BackspaceOutcome(KeyMove(e, Right, false), e.cursor);
  }

  /** Left undoes Right, and Right undoes Left. */
  lemma LeftAndRight(e: Entry)
    requires Sound(e) && e.preedit.NoPreedit?
    ensures e.cursor < |e.text| ==> KeyMove(KeyMove(e, Right, false), Left, false).cursor == e.cursor
    ensures 0 < e.cursor ==> KeyMove(KeyMove(e, Left, false), Right, false).cursor == e.cursor
  {
    if e.cursor < |e.text| {
      NextThenPrev(e.text, e.cursor);
    }
    if 0 < e.cursor {
      PrevThenNext(e.text, e.cursor);
    }
  }

  /** The entry before the commit in the next lemma: the text that was to be deleted is
      gone. */
  function DeletedBefore(): Entry {
    Entry([], 0, 0, NoPreedit, Pending(0, 0, 0, 1, false), 2, 1, Told([], 0, 0))
  }

  lemma DeletedBeforeReached(e: Entry)
    requires e == Created([0x61])
    ensures Run(e, [Message(DeleteEvent(-1, 1))] + [KeyBackspaceEvent]) == Live(DeletedBefore())
  {
    var first: seq<Event> := [Message(DeleteEvent(-1, 1))];
    var e1 := e.(pending := Pending(0, 0, 0, 1, false));
    RunReaches(e, [], Message(DeleteEvent(-1, 1)), e, e1);
    assert [] + first == first;
    BackspaceOutcome(e1, 0);
    assert Spliced(e.text, 0, 1, []) == [];
    RunReaches(e, first, KeyBackspaceEvent, e1, DeletedBefore());
  }

  /** Deleting the text between a deletion's announcement and its commit: the commit
      fails an assertion. */
  lemma StaleDeletionAborts(e: Entry)
    requires e == Created([0x61])
    ensures Run(e, [Message(DeleteEvent(-1, 1))] + [KeyBackspaceEvent] + [Message(CommitEvent(1, []))]).Aborted?
  {
    DeletedBeforeReached(e);
    LongDeletionAborts(DeletedBefore(), 1, [], []);
    RunGoesOn(e, [Message(DeleteEvent(-1, 1))] + [KeyBackspaceEvent], Message(CommitEvent(1, [])), DeletedBefore());
  }

  /** The entry before the commit in the next lemma: an a typed in front of the text
      that was to be deleted. */
  function TypedInFront(): Entry {
    Entry([0x61, 0xC3, 0xA9], 1, 1, NoPreedit, Pending(0, 0, 0, 2, false), 3, 2, Told([0x61, 0xC3, 0xA9], 1, 1))
  }

  lemma TypedInFrontReached(e: Entry)
    requires e == Created([0xC3, 0xA9])
    ensures Run(e, [Message(DeleteEvent(-2, 2))] + [KeyMoveEvent(Left, false)] + [KeyInsertEvent([0x61])])
      == Live(TypedInFront())
  {
    var first: seq<Event> := [Message(DeleteEvent(-2, 2))];
    var e1 := e.(pending := Pending(0, 0, 0, 2, false));
    RunReaches(e, [], Message(DeleteEvent(-2, 2)), e, e1);
    assert [] + first == first;
    PrevCharIs(e.text, 2, 0);
    var e2 := Reset(e1).(cursor := 0, anchor := 0);
    RunReaches(e, first, KeyMoveEvent(Left, false), e1, e2);
    TypedOutcome(e2);
    RunReaches(e, first + [KeyMoveEvent(Left, false)], KeyInsertEvent([0x61]), e2, TypedInFront());
  }

  lemma TypedOutcome(e: Entry)
    requires e.text == [0xC3, 0xA9] && e.cursor == 0 && e.preedit.NoPreedit? && e.pending == Pending(0, 0, 0, 2, false)
    requires e.updates == 1
    ensures KeyInsert(e, [0x61]) == Live(TypedInFront())
  {
    InsertOutcome(Reset(e), [0x61]);
    assert Spliced(e.text, 0, 0, [0x61]) == [0x61, 0xC3, 0xA9];
  }

  lemma CommitSplits()
    ensures Good(TypedInFront())
    ensures var o := CommitString(TypedInFront(), 3, []);
      o.Live? && o.entry.text == [0xA9] && o.entry.cursor == 0
  {
    var e := TypedInFront();
    assert e.text == [0x61] + [0xC3, 0xA9];
    OneCharacter([0x61]);
    OneCharacter([0xC3, 0xA9]);
    WellFormedConcatenation([0x61], [0xC3, 0xA9]);
    CommitOfDeletion(e, 3, []);
    assert AfterDeletion(e).text == [0xA9];
  }

  /** Typing in front of the text between the announcement and the commit: no assertion
      fails, but half a character is left. */
  lemma StaleDeletionSplits(e: Entry)
    requires e == Created([0xC3, 0xA9])
    ensures
      var o := Run(e, [Message(DeleteEvent(-2, 2))] + [KeyMoveEvent(Left, false)]
        + [KeyInsertEvent([0x61])] + [Message(CommitEvent(3, []))]);
      && o.Live? && o.entry.text == [0xA9] && o.entry.cursor == 0
      && !WellFormed(o.entry.text) && !Boundary(o.entry.text, 0)
  {
    TypedInFrontReached(e);
    CommitSplits();
    RunGoesOn(e, [Message(DeleteEvent(-2, 2))] + [KeyMoveEvent(Left, false)] + [KeyInsertEvent([0x61])],
              Message(CommitEvent(3, [])), TypedInFront());
  }
}
