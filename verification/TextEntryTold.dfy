/**
 What the input method has been told of a text entry in clients/editor.c: always its
 text, but not where a cursor key has moved its cursor since.
 */
module TextEntryTold {
  import opened Utf8
  import opened TextEntry
  import opened TextEntryRuns

  /** Once anything was sent, the text sent last is the text. */
  predicate TextTold(e: Entry) {
    e.told.Told? ==> e.told.text == e.text
  }

  lemma EditsTold(e: Entry, index: nat, length: nat)
    requires TextTold(e)
    ensures Delete(e, index, length).Live? ==> TextTold(Delete(e, index, length).entry)
    ensures DeleteSelected(e).Live? ==> TextTold(DeleteSelected(e).entry)
    ensures Cut(e).Live? ==> TextTold(Cut(e).entry)
  {
  }

  lemma InsertTold(e: Entry, t: Text, cursor: int, anchor: int)
    requires e.cursor <= |e.text|
    ensures Insert(e, t, cursor, anchor).Live? ==> TextTold(Insert(e, t, cursor, anchor).entry)
  {
  }

  lemma ResetTold(e: Entry)
    requires e.cursor <= |e.text|
    ensures var f := CommitAndReset(e).entry; f.told == Told(f.text, f.cursor, f.anchor)
  {
  }

  lemma CommitStringTold(e: Entry, serial: nat, t: Text)
    requires e.cursor <= |e.text| && TextTold(e)
    ensures CommitString(e, serial, t).Live? ==> TextTold(CommitString(e, serial, t).entry)
  {
    var o := DeletePending(e.(preedit := NoPreedit));
    if o.Live? {
      InsertTold(o.entry, t, e.pending.cursor, e.pending.anchor);
    }
  }

  lemma PreeditStringTold(e: Entry, serial: nat, t: Text, commit: Text)
    requires e.cursor <= |e.text| && TextTold(e)
    ensures PreeditString(e, serial, t, commit).Live? ==> TextTold(PreeditString(e, serial, t, commit).entry)
  {
  }

  lemma HandleTold(e: Entry, request: Request)
    requires e.cursor <= |e.text| && TextTold(e) && Handle(e, request).Live?
    ensures TextTold(Handle(e, request).entry)
  {
    match request
    case CommitEvent(serial, text) => CommitStringTold(e, serial, text);
    case PreeditEvent(serial, text, commit) => PreeditStringTold(e, serial, text, commit);
    case _ =>
  }

  lemma KeysymBackspaceTold(e: Entry)
    requires e.cursor <= |e.text|
    ensures KeysymBackspace(e).Live? ==> TextTold(KeysymBackspace(e).entry)
  {
    ResetTold(e);
    var f := CommitAndReset(e).entry;
    var start := PrevChar(f.text, f.cursor);
    if start.At? {
      EditsTold(f, start.p, NextChar(f.text, start.p).p - start.p);
    }
  }

  lemma KeyBackspaceTold(e: Entry)
    requires e.cursor <= |e.text|
    ensures KeyBackspace(e).Live? ==> TextTold(KeyBackspace(e).entry)
  {
    ResetTold(e);
    var f := CommitAndReset(e).entry;
    var start := PrevChar(f.text, f.cursor);
    if start.At? {
      EditsTold(f, start.p, f.cursor - start.p);
    }
  }

  lemma KeyDeleteTold(e: Entry)
    requires e.cursor <= |e.text|
    ensures KeyDelete(e).Live? ==> TextTold(KeyDelete(e).entry)
  {
    ResetTold(e);
    var f := CommitAndReset(e).entry;
    if f.cursor < |f.text| {
      var end := DeleteForwardIs(f);
      EditsTold(f, f.cursor, end - f.cursor);
    }
  }

  lemma StepTold(e: Entry, event: Event)
    requires e.cursor <= |e.text| && TextTold(e) && Step(e, event).Live?
    ensures TextTold(Step(e, event).entry)
  {
    match event
    case Message(request) => HandleTold(e, request);
    case SymBackspace => KeysymBackspaceTold(e);
    case KeyBackspaceEvent => KeyBackspaceTold(e);
    case KeyDeleteEvent => KeyDeleteTold(e);
    case KeyMoveEvent(_, _) => ResetTold(e);
    case KeyInsertEvent(text) => InsertTold(CommitAndReset(e).entry, text, 0, 0);
    case LeaveEvent => ResetTold(e);
    case CutEvent => EditsTold(e, 0, 0);
    case SymInsert(text) => InsertTold(e, text, 0, 0);
    case Paste(text) => InsertTold(e, text, 0, 0);
    case _ =>
  }

  /** In every run, whatever the input method sends, it knows the text as it is. */
  lemma {:induction false} RunTold(e: Entry, events: seq<Event>)
    requires e.cursor <= |e.text| && TextTold(e) && Run(e, events).Live?
    ensures TextTold(Run(e, events).entry)
  {
    if events != [] {
      var n := |events| - 1;
      RunTold(e, events[..n]);
      StepTold(Run(e, events[..n]).entry, events[n]);
    }
  }

  /** A cursor key is told of before it moves the cursor, or not at all. */
  lemma MovesUntold(e: Entry, d: Direction, shift: bool)
    requires e.cursor <= |e.text|
    ensures KeysymMove(e, d, shift).told == e.told
    ensures var f := CommitAndReset(e).entry;
      && KeyMove(e, d, shift).told == Told(f.text, f.cursor, f.anchor)
      && KeyMove(e, d, shift).cursor == Target(f.text, f.cursor, d)
  {
    ResetTold(e);
  }
}
