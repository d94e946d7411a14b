/**
 The serials of clients/editor.c: which commit and preedit events an entry takes
 and which it drops as older than its last reset.
 */
module TextEntrySerials {
  import opened Utf8
  import opened TextEntry
  import opened TextEntryRuns

  /** The serial on the wire after so many updates. */
  function Serial(updates: nat): nat {
    updates % U32
  }

  lemma Wraps(a: int, b: int)
    ensures (a % U32 - b % U32) % U32 == (a - b) % U32
  {
    var p, q := a / U32, b / U32;
    assert a - b == (a % U32 - b % U32) + (p - q) * U32;
    WrapsMultiple(a % U32 - b % U32, p - q);
  }

  lemma WrapsMultiple(a: int, k: int)
    ensures (a + k * U32) % U32 == a % U32
  {
    var q := a / U32;
    assert a + k * U32 == (q + k) * U32 + a % U32;
  }

  /** An event passes exactly when its serial is that of a state since the reset. */
  lemma PassesIff(e: Entry, serial: nat)
    requires e.reset_at <= e.updates < e.reset_at + U32 && serial < U32
    ensures Passes(e, serial) <==> exists k: nat :: e.reset_at <= k <= e.updates && Serial(k) == serial
  {
    PassesByAge(e, serial);
    if Passes(e, serial) {
      var k := e.updates - (e.updates - serial) % U32;
      SerialOfAge(e.updates, serial);
      assert Serial(k) == serial;
    }
    if k: nat :| e.reset_at <= k <= e.updates && Serial(k) == serial {
      AgeOfSerial(e.updates, k);
    }
  }

  lemma AgeOfSerial(updates: nat, k: nat)
    requires k <= updates < k + U32
    ensures (updates - Serial(k)) % U32 == updates - k
  {
    var q := k / U32;
    assert updates - Serial(k) == (updates - k) + q * U32;
    WrapsMultiple(updates - k, q);
  }

  lemma InRange(n: int)
    requires 0 <= n < U32
    ensures n % U32 == n
  {
  }

  /** The test compares ages. */
  lemma PassesByAge(e: Entry, serial: nat)
    requires e.reset_at <= e.updates < e.reset_at + U32 && serial < U32
    ensures Passes(e, serial) <==> (e.updates - serial) % U32 <= e.updates - e.reset_at
  {
    Wraps(e.updates, serial);
    InRange(serial);
    Wraps(e.updates, e.reset_at);
    InRange(e.updates - e.reset_at);
  }

  lemma SerialOfAge(updates: int, serial: nat)
    requires serial < U32
    ensures (updates - (updates - serial) % U32) % U32 == serial
  {
    var d := updates - serial;
    assert updates - d % U32 == serial + (d / U32) * U32;
    WrapsMultiple(serial, d / U32);
  }

  /** An event sent for state m, before the reset, is taken exactly when its age has
      wrapped to that of a state since the reset. */
  lemma StaleTakenIff(e: Entry, m: nat)
    requires m < e.reset_at <= e.updates < e.reset_at + U32
    ensures Passes(e, Serial(m)) <==> (e.updates - m) % U32 <= e.updates - e.reset_at
  {
    Wraps(e.updates, m);
    Wraps(e.updates, e.reset_at);
  }

  /** So with fewer than 2^32 updates since it was sent, it is dropped ... */
  lemma StaleDropped(e: Entry, m: nat)
    requires m < e.reset_at <= e.updates < m + U32
    requires e.cursor <= |e.text|
    ensures forall t :: CommitString(e, Serial(m), t) == Live(e)
    ensures forall t, c :: PreeditString(e, Serial(m), t, c) == Live(e.(pending := NOTHING))
  {
    StaleTakenIff(e, m);
  }

  /** ... and one from a state since the reset is taken. */
  lemma FreshTaken(e: Entry, m: nat)
    requires e.reset_at <= m <= e.updates < e.reset_at + U32
    ensures Passes(e, Serial(m))
  {
    PassesIff(e, Serial(m));
  }

  /** Counting only the updates since the reset is not enough: an event sent before
      the text entry was entered is taken after 2^32 - 1 more updates. */
  lemma StaleTakenAfterWrap(t: Text)
    requires |t| < LIMIT
    ensures
      var o := Run(Created([]), [EnterEvent] + EmptyPastes(U32 - 1));
      && o.Live? && 0 < o.entry.reset_at <= o.entry.updates < o.entry.reset_at + U32
      && CommitString(o.entry, Serial(0), t).Live? && CommitString(o.entry, Serial(0), t).entry.text == t
  {
    EmptyPastesReach(U32 - 1);
    WrappedTaken(Entered(U32), t);
  }

  /** An empty entry that was entered, after so many updates. */
  function Entered(updates: nat): Entry {
    Entry([], 0, 0, NoPreedit, NOTHING, updates, 1, Told([], 0, 0))
  }

  function EmptyPastes(n: nat): seq<Event> {
    seq(n, i => Paste([]))
  }

  /** Each paste, also of nothing, is an update. */
  lemma {:induction false} EmptyPastesReach(n: nat)
    ensures Run(Created([]), [EnterEvent] + EmptyPastes(n)) == Live(Entered(n + 1))
  {
    var e := Created([]);
    if n == 0 {
      RunReaches(e, [], EnterEvent, e, Reset(e));
      assert [] + [EnterEvent] == [EnterEvent] + EmptyPastes(0);
    } else {
      var f := Entered(n);
      EmptyPastesReach(n - 1);
      EmptyPaste(f);
      RunReaches(e, [EnterEvent] + EmptyPastes(n - 1), Paste([]), f, Entered(n + 1));
      assert [EnterEvent] + EmptyPastes(n - 1) + [Paste([])] == [EnterEvent] + EmptyPastes(n);
    }
  }

  lemma EmptyPaste(f: Entry)
    requires f.text == [] && f.cursor == f.anchor == 0
    ensures Step(f, Paste([])) == Live(Update(f))
  {
    InsertOutcome(f, []);
    assert Spliced([], 0, 0, []) == [];
  }

  lemma WrappedTaken(e: Entry, t: Text)
    requires e == Entered(U32) && |t| < LIMIT
    ensures CommitString(e, Serial(0), t).Live? && CommitString(e, Serial(0), t).entry.text == t
  {
    StaleTakenIff(e, 0);
    InsertOutcome(e, t);
    assert Spliced([], 0, 0, t) == t;
  }

  /** A reset drops everything sent before it for the next 2^32 - 1 updates, whatever
      run follows. */
  lemma StaleDroppedInRun(e: Entry, events: seq<Event>, m: nat, t: Text)
    requires e.cursor <= |e.text| && m < e.reset_at && e.reset_at <= e.updates
    requires Run(e, events).Live? && Run(e, events).entry.updates < m + U32
    ensures CommitString(Run(e, events).entry, Serial(m), t) == Run(e, events)
  {
    RunKeepsOrder(e, events);
    StaleDropped(Run(e, events).entry, m);
  }

  /** f's counts are no earlier than e's. */
  predicate Later(e: Entry, f: Entry) {
    e.updates <= f.updates && (f.reset_at == e.reset_at || e.updates <= f.reset_at <= f.updates)
  }

  lemma EditsLater(e: Entry, index: nat, length: nat)
    ensures Delete(e, index, length).Live? ==> Later(e, Delete(e, index, length).entry)
    ensures DeleteSelected(e).Live? ==> Later(e, DeleteSelected(e).entry)
    ensures Cut(e).Live? ==> Later(e, Cut(e).entry)
  {
  }

  lemma ResetLater(e: Entry)
    requires e.cursor <= |e.text|
    ensures Later(e, CommitAndReset(e).entry)
  {
  }

  lemma DeletePendingLater(e: Entry)
    ensures DeletePending(e).Live? ==> Later(e, DeletePending(e).entry)
  {
    EditsLater(e, e.pending.delete_index, e.pending.delete_length);
  }

  lemma CommitStringLater(e: Entry, serial: nat, t: Text)
    requires e.cursor <= |e.text|
    ensures CommitString(e, serial, t).Live? ==> Later(e, CommitString(e, serial, t).entry)
  {
    DeletePendingLater(e.(preedit := NoPreedit));
  }

  lemma PreeditStringLater(e: Entry, serial: nat, t: Text, commit: Text)
    requires e.cursor <= |e.text|
    ensures PreeditString(e, serial, t, commit).Live? ==> Later(e, PreeditString(e, serial, t, commit).entry)
  {
    DeletePendingLater(e);
  }

  lemma KeyBackspaceLater(e: Entry)
    requires e.cursor <= |e.text|
    ensures KeyBackspace(e).Live? ==> Later(e, KeyBackspace(e).entry)
  {
    ResetLater(e);
    var f := CommitAndReset(e).entry;
    var start := PrevChar(f.text, f.cursor);
    if start.At? {
      EditsLater(f, start.p, f.cursor - start.p);
    }
  }

  lemma KeysymBackspaceLater(e: Entry)
    requires e.cursor <= |e.text|
    ensures KeysymBackspace(e).Live? ==> Later(e, KeysymBackspace(e).entry)
  {
    ResetLater(e);
    var f := CommitAndReset(e).entry;
    var start := PrevChar(f.text, f.cursor);
    if start.At? {
      EditsLater(f, start.p, NextChar(f.text, start.p).p - start.p);
    }
  }

  lemma KeyDeleteLater(e: Entry)
    requires e.cursor <= |e.text|
    ensures KeyDelete(e).Live? ==> Later(e, KeyDelete(e).entry)
  {
    ResetLater(e);
    var f := CommitAndReset(e).entry;
    var end := NextChar(f.text, f.cursor);
    if end.At? {
      EditsLater(f, f.cursor, end.p - f.cursor);
    }
  }

  lemma HandleLater(e: Entry, request: Request)
    requires e.cursor <= |e.text| && Handle(e, request).Live?
    ensures Later(e, Handle(e, request).entry)
  {
    match request
    case CommitEvent(serial, text) => CommitStringLater(e, serial, text);
    case PreeditEvent(serial, text, commit) => PreeditStringLater(e, serial, text, commit);
    case _ =>
  }

  lemma StepLater(e: Entry, event: Event)
    requires e.cursor <= |e.text| && Step(e, event).Live?
    ensures Later(e, Step(e, event).entry)
  {
    match event
    case Message(request) => HandleLater(e, request);
    case SymBackspace => KeysymBackspaceLater(e);
    case KeyBackspaceEvent => KeyBackspaceLater(e);
    case KeyDeleteEvent => KeyDeleteLater(e);
    case KeyMoveEvent(_, _) => ResetLater(e);
    case KeyInsertEvent(_) => ResetLater(e);
    case LeaveEvent => ResetLater(e);
    case CutEvent => EditsLater(e, 0, 0);
    case _ =>
  }

  lemma {:induction false} RunKeepsOrder(e: Entry, events: seq<Event>)
    requires e.cursor <= |e.text| && e.reset_at <= e.updates && Run(e, events).Live?
    ensures var f := Run(e, events).entry; e.reset_at <= f.reset_at <= f.updates && e.updates <= f.updates
  {
    if events != [] {
      var n := |events| - 1;
      RunKeepsOrder(e, events[..n]);
      StepLater(Run(e, events[..n]).entry, events[n]);
    }
  }
}
