/**
 The compose key of clients/simple-im.c: keys recorded after the compose key is
 released, looked up by prefix in a table, until they make or fail to make an entry.
 */
module SimpleIm {

  /** A symbol of a key; 0 is no symbol, and ends the keys of an entry. */
  type Keysym = k: int | 0 < k < 0x2000_0000 witness 1

  datatype Entry = Entry(keys: seq<Keysym>, text: string)

  type Table = seq<Entry>

  // ----------------------------------------------------------------------- comparing

  /** What compare_compose_keys returns for a query and the keys of an entry. */
  function Compare(query: seq<Keysym>, keys: seq<Keysym>): int {
    if query == [] then 0
    else if keys == [] then query[0]
    else if query[0] != keys[0] then query[0] - keys[0]
    else Compare(query[1..], keys[1..])
  }

  predicate Prefix(query: seq<Keysym>, keys: seq<Keysym>) {
    |query| <= |keys| && query == keys[..|query|]
  }

  /** Equal means that the entry starts with the query. */
  lemma {:induction false} CompareIff(query: seq<Keysym>, keys: seq<Keysym>)
    ensures Compare(query, keys) == 0 <==> Prefix(query, keys)
  {
    if query != [] && keys != [] {
      CompareIff(query[1..], keys[1..]);
      if query[0] == keys[0] {
        if Prefix(query[1..], keys[1..]) {
          assert query == [query[0]] + query[1..] == keys[..|query|];
        }
        if Prefix(query, keys) {
          assert query[1..] == keys[1..][..|query| - 1];
        }
      }
    }
  }

  method CompareKeys(query: seq<Keysym>, keys: seq<Keysym>) returns (order: int)
    ensures order == Compare(query, keys)
  {
    var i: nat := 0;
    while i < |query| && i < |keys|
      invariant i <= |query| && i <= |keys|
      invariant Compare(query, keys) == Compare(query[i..], keys[i..])
    {
      if query[i] != keys[i] {
        var asked: int, there: int := query[i], keys[i];
        return asked - there;
      }
      assert query[i..][1..] == query[i + 1..] && keys[i..][1..] == keys[i + 1..];
      i := i + 1;
    }
    if i == |query| {
      return 0;
    }
    return query[i];
  }

  // ----------------------------------------------------------------------- searching

  datatype Found = At(i: nat) | Missing

  /** bsearch, halving as the C library does, from l up to and without u. */
  function Search(table: Table, query: seq<Keysym>, l: nat, u: nat): (f: Found)
    requires l <= u <= |table|
    ensures f.At? ==> l <= f.i < u && Prefix(query, table[f.i].keys)
    decreases u - l
  {
    if l == u then Missing
    else
      var mid := (l + u) / 2;
      var order := Compare(query, table[mid].keys);
      CompareIff(query, table[mid].keys);
      if order < 0 then Search(table, query, l, mid)
      else if order > 0 then Search(table, query, mid + 1, u)
      else At(mid)
  }

  method BinarySearch(table: Table, query: seq<Keysym>) returns (f: Found)
    ensures f == Search(table, query, 0, |table|)
  {
    var l, u := 0, |table|;
    while l < u
      invariant l <= u <= |table|
      invariant Search(table, query, l, u) == Search(table, query, 0, |table|)
      decreases u - l
    {
      var mid := (l + u) / 2;
      var order := CompareKeys(query, table[mid].keys);
      if order < 0 {
        u := mid;
      } else if order > 0 {
        l := mid + 1;
      } else {
        return At(mid);
      }
    }
    return Missing;
  }

  /** Keys in dictionary order. */
  predicate Before(a: seq<Keysym>, b: seq<Keysym>) {
    a == [] || (b != [] && (a[0] < b[0] || (a[0] == b[0] && Before(a[1..], b[1..]))))
  }

  ghost predicate SortedBetween(table: Table, l: nat, u: nat) {
    u <= |table| && forall i, j | l <= i < j < u :: Before(table[i].keys, table[j].keys)
  }

  ghost predicate Sorted(table: Table) {
    SortedBetween(table, 0, |table|)
  }

  lemma {:induction false} BelowStaysBelow(query: seq<Keysym>, a: seq<Keysym>, b: seq<Keysym>)
    requires Before(a, b) && Compare(query, a) < 0
    ensures Compare(query, b) < 0
  {
    if query[0] == a[0] == b[0] {
      BelowStaysBelow(query[1..], a[1..], b[1..]);
    }
  }

  lemma {:induction false} AboveStaysAbove(query: seq<Keysym>, a: seq<Keysym>, b: seq<Keysym>)
    requires Before(a, b) && Compare(query, b) > 0
    ensures Compare(query, a) > 0
  {
    if a != [] && query[0] == a[0] == b[0] {
      AboveStaysAbove(query[1..], a[1..], b[1..]);
    }
  }

  /** When a query sorts before an entry, no later one starts with it; when behind, no
      earlier one. */
  lemma NoneAbove(table: Table, query: seq<Keysym>, l: nat, mid: nat, u: nat)
    requires l <= mid < u && SortedBetween(table, l, u) && Compare(query, table[mid].keys) < 0
    ensures forall i | mid <= i < u :: !Prefix(query, table[i].keys)
  {
    CompareIff(query, table[mid].keys);
    forall i | mid < i < u ensures !Prefix(query, table[i].keys) {
      BelowStaysBelow(query, table[mid].keys, table[i].keys);
      CompareIff(query, table[i].keys);
    }
  }

  lemma NoneBelow(table: Table, query: seq<Keysym>, l: nat, mid: nat, u: nat)
    requires l <= mid < u && SortedBetween(table, l, u) && Compare(query, table[mid].keys) > 0
    ensures forall i | l <= i <= mid :: !Prefix(query, table[i].keys)
  {
    CompareIff(query, table[mid].keys);
    forall i | l <= i < mid ensures !Prefix(query, table[i].keys) {
      AboveStaysAbove(query, table[i].keys, table[mid].keys);
      CompareIff(query, table[i].keys);
    }
  }

  ghost predicate Starts(table: Table, query: seq<Keysym>, l: nat, u: nat)
    requires u <= |table|
  {
    exists i :: l <= i < u && Prefix(query, table[i].keys)
  }

  /** In a sorted part of a table the search finds an entry exactly when one starts
      with the query. */
  lemma {:induction false} SearchIff(table: Table, query: seq<Keysym>, l: nat, u: nat)
    requires l <= u && SortedBetween(table, l, u)
    ensures Search(table, query, l, u).At? <==> Starts(table, query, l, u)
    decreases u - l
  {
    if l < u {
      var mid := (l + u) / 2;
      var order := Compare(query, table[mid].keys);
      if order < 0 {
        SearchIff(table, query, l, mid);
        NoneAbove(table, query, l, mid, u);
      } else if order > 0 {
        SearchIff(table, query, mid + 1, u);
        NoneBelow(table, query, l, mid, u);
      } else {
        CompareIff(query, table[mid].keys);
      }
    }
  }

  // --------------------------------------------------------------------- composing

  datatype Output =
    | Forwarded(sym: int)
    | Preedit(keys: seq<Keysym>)
    | Composed(entry: nat)
    | Plain(keys: seq<Keysym>)
    | Typed(sym: int)

  /** A commit that ends composing. */
  predicate Ends(o: Output) {
    o.Composed? || o.Plain?
  }

  datatype Mode = Normal | Composing(recorded: seq<Keysym>)

  /** printable: the key has text of its own. */
  datatype Event =
    | Key(sym: int, released: bool, printable: bool)
    | Reset
    | Activate

  const MULTI_KEY: Keysym := 0xFF20
  const SHIFT_L: Keysym := 0xFFE1
  const SHIFT_R: Keysym := 0xFFE2

  predicate Symbol(sym: int) {
    0 <= sym < 0x2000_0000
  }

  /** The keys recorded once a key is written behind them; no symbol leaves them. */
  function Written(recorded: seq<Keysym>, sym: int): seq<Keysym>
    requires Symbol(sym)
  {
    if sym == 0 then recorded else recorded + [sym]
  }

  /** A key is released while composing. */
  function Record(table: Table, recorded: seq<Keysym>, sym: int): (Mode, Output)
    requires Symbol(sym)
  {
    if sym == SHIFT_L || sym == SHIFT_R then (Composing(recorded), Forwarded(sym))
    else
      var keys := Written(recorded, sym);
      var f := Search(table, keys, 0, |table|);
      if f.Missing? then (Normal, Plain(keys))
      else if |table[f.i].keys| <= |recorded| + 1 then (Normal, Composed(f.i))
      else (Composing(keys), Preedit(table[f.i].keys[..|recorded| + 1]))
  }

  function Handle(table: Table, mode: Mode, sym: int, released: bool, printable: bool): (Mode, seq<Output>)
    requires Symbol(sym)
  {
    if sym == MULTI_KEY && released && mode.Normal? then (Composing([]), [])
    else if mode.Composing? then
      if !released then (mode, [])
      else
        var (next, output) := Record(table, mode.recorded, sym);
        (next, [output])
    else if !printable then (mode, [Forwarded(sym)])
    else if !released then (mode, [])
    else (mode, [Typed(sym)])
  }

  /** The machine, what it has sent, how often composing was started, and how often it
      was cut short. */
  datatype Machine = Machine(mode: Mode, outputs: seq<Output>, started: nat, cut: nat)

  const IDLE := Machine(Normal, [], 0, 0)

  predicate Legal(e: Event) {
    e.Key? ==> Symbol(e.sym)
  }

  function Step(table: Table, m: Machine, e: Event): Machine
    requires Legal(e)
  {
    match e
    case Key(sym, released, printable) =>
      var (mode, outputs) := Handle(table, m.mode, sym, released, printable);
      Machine(mode, m.outputs + outputs, m.started + (if m.mode.Normal? && mode.Composing? then 1 else 0), m.cut)
    case _ => m.(mode := Normal, cut := m.cut + if m.mode.Composing? then 1 else 0)
  }

  function Run(table: Table, events: seq<Event>): Machine
    requires forall e <- events :: Legal(e)
  {
    if events == [] then IDLE else Step(table, Run(table, events[..|events| - 1]), events[|events| - 1])
  }

  /** Entries of one to three keys. */
  ghost predicate Usable(table: Table) {
    table != [] && forall i | 0 <= i < |table| :: 1 <= |table[i].keys| <= 3
  }

  predicate Leads(table: Table, recorded: seq<Keysym>, i: nat) {
    i < |table| && Prefix(recorded, table[i].keys) && |recorded| < |table[i].keys|
  }

  function Commits(outputs: seq<Output>): nat {
    if outputs == [] then 0 else Commits(outputs[..|outputs| - 1]) + if Ends(outputs[|outputs| - 1]) then 1 else 0
  }

  /** The recorded keys lead on to some entry, and every start of composing has had one
      commit, was cut short, or is still going on. */
  ghost predicate Inv(table: Table, m: Machine) {
    && (m.mode.Composing? ==> exists i :: Leads(table, m.mode.recorded, i))
    && m.started == Commits(m.outputs) + m.cut + if m.mode.Composing? then 1 else 0
  }

  lemma CommitsOfOneMore(outputs: seq<Output>, o: Output)
    ensures Commits(outputs + [o]) == Commits(outputs) + if Ends(o) then 1 else 0
  {
    assert (outputs + [o])[..|outputs|] == outputs;
  }

  /** A key either goes on along some entry, or ends composing with one commit. */
  lemma RecordLeads(table: Table, recorded: seq<Keysym>, sym: int)
    requires Usable(table) && Symbol(sym) && exists i :: Leads(table, recorded, i)
    ensures var (mode, output) := Record(table, recorded, sym);
      && (mode.Normal? <==> Ends(output))
      && (mode.Composing? ==> exists i :: Leads(table, mode.recorded, i))
      && (mode.Composing? ==>
        mode.recorded == if sym == SHIFT_L || sym == SHIFT_R then recorded else Written(recorded, sym))
  {
    var keys := Written(recorded, sym);
    var f := Search(table, keys, 0, |table|);
    if f.At? && |table[f.i].keys| > |recorded| + 1 {
      assert Leads(table, keys, f.i);
    }
  }

  lemma ComposingKeyInv(table: Table, m: Machine, e: Event)
    requires Usable(table) && Inv(table, m) && Legal(e) && e.Key? && m.mode.Composing? && e.released
    ensures Inv(table, Step(table, m, e))
  {
    var (mode, output) := Record(table, m.mode.recorded, e.sym);
    RecordLeads(table, m.mode.recorded, e.sym);
    CommitsOfOneMore(m.outputs, output);
    assert Step(table, m, e) == Machine(mode, m.outputs + [output], m.started, m.cut);
  }

  lemma OtherKeyInv(table: Table, m: Machine, e: Event)
    requires Usable(table) && Inv(table, m) && Legal(e) && e.Key? && (m.mode.Composing? ==> !e.released)
    ensures Inv(table, Step(table, m, e))
  {
    var (mode, outputs) := Handle(table, m.mode, e.sym, e.released, e.printable);
    assert Leads(table, [], 0);
    if outputs == [] {
      assert m.outputs + outputs == m.outputs;
    } else {
      CommitsOfOneMore(m.outputs, outputs[0]);
      assert m.outputs + outputs == m.outputs + [outputs[0]];
    }
  }

  lemma StepInv(table: Table, m: Machine, e: Event)
    requires Usable(table) && Inv(table, m) && Legal(e)
    ensures Inv(table, Step(table, m, e))
  {
    if e.Key? {
      if m.mode.Composing? && e.released {
        ComposingKeyInv(table, m, e);
      } else {
        OtherKeyInv(table, m, e);
      }
    }
  }

  lemma {:induction false} RunInv(table: Table, events: seq<Event>)
    requires Usable(table) && forall e <- events :: Legal(e)
    ensures Inv(table, Run(table, events))
  {
    if events != [] {
      RunInv(table, events[..|events| - 1]);
      StepInv(table, Run(table, events[..|events| - 1]), events[|events| - 1]);
    }
  }

  /** So the buffer of four keys holds the recorded ones, the next and the final 0; and
      the commits are the episodes not cut short or still going on. */
  lemma BufferSuffices(table: Table, events: seq<Event>)
    requires Usable(table) && forall e <- events :: Legal(e)
    ensures var m := Run(table, events);
      && (m.mode.Composing? ==> |m.mode.recorded| + 2 <= 4)
      && Commits(m.outputs) == m.started - m.cut - if m.mode.Composing? then 1 else 0
  {
    RunInv(table, events);
  }

  /** Every symbol but Shift lengthens the record or ends composing; so the third ends it. */
  lemma ThirdKeyEnds(table: Table, m: Machine, a: int, b: int, c: int, p: bool, q: bool, r: bool)
    requires Usable(table) && Inv(table, m) && m.mode.Composing?
    requires forall k <- [a, b, c] :: Symbol(k) && k != 0 && k != SHIFT_L && k != SHIFT_R
    ensures var m1 := Step(table, m, Key(a, true, p));
      var m2 := Step(table, m1, Key(b, true, q));
      var m3 := Step(table, m2, Key(c, true, r));
      m1.mode.Normal? || m2.mode.Normal? || m3.mode.Normal?
  {
    assert a in [a, b, c] && b in [a, b, c] && c in [a, b, c];
    var m1 := Step(table, m, Key(a, true, p));
    RecordLeads(table, m.mode.recorded, a);
    if m1.mode.Composing? {
      var m2 := Step(table, m1, Key(b, true, q));
      RecordLeads(table, m1.mode.recorded, b);
      if m2.mode.Composing? {
        RecordLeads(table, m2.mode.recorded, c);
      }
    }
  }

  // ----------------------------------------------------------------- sorted tables

  /** No entry's keys start another's. */
  ghost predicate PrefixFree(table: Table) {
    forall i, j | 0 <= i < |table| && 0 <= j < |table| && i != j :: !Prefix(table[i].keys, table[j].keys)
  }

  ghost predicate NoShift(keys: seq<Keysym>) {
    forall k <- keys :: k != SHIFT_L && k != SHIFT_R
  }

  /** In a sorted table where no entry starts another, the keys of an entry compose it,
      and nothing before the last key ends composing. */
  lemma SortedComposes(table: Table, k: nat, j: nat)
    requires Usable(table) && Sorted(table) && PrefixFree(table)
    requires k < |table| && NoShift(table[k].keys) && j < |table[k].keys|
    ensures var keys := table[k].keys;
      var (mode, output) := Record(table, keys[..j], keys[j]);
      if j + 1 < |keys| then mode == Composing(keys[..j + 1]) else mode.Normal? && output == Composed(k)
  {
    var query := table[k].keys[..j + 1];
    SearchIff(table, query, 0, |table|);
    assert Prefix(query, table[k].keys);
    FoundComposes(table, k, j, Search(table, query, 0, |table|).i);
  }

  /** What finding an entry that starts with part of an entry's keys comes to. */
  lemma FoundComposes(table: Table, k: nat, j: nat, i: nat)
    requires k < |table| && NoShift(table[k].keys) && j < |table[k].keys|
    requires Search(table, table[k].keys[..j + 1], 0, |table|) == At(i)
    requires i != k ==> !Prefix(table[i].keys, table[k].keys) && !Prefix(table[k].keys, table[i].keys)
    ensures var keys := table[k].keys;
      var (mode, output) := Record(table, keys[..j], keys[j]);
      if j + 1 < |keys| then mode == Composing(keys[..j + 1]) else mode.Normal? && output == Composed(k)
  {
    var keys := table[k].keys;
    var query := keys[..j + 1];
    assert Written(keys[..j], keys[j]) == query;
    assert keys[j] in keys;
    assert j + 1 == |keys| ==> query == keys;
    assert |table[i].keys| <= j + 1 ==> table[i].keys == query;
  }

  // ----------------------------------------------------------------- the real table

  /** Entries of two keys. */
  function Pair(a: Keysym, b: Keysym, text: string): Entry {
    Entry([a, b], text)
  }

  const TABLE: Table := [
    Pair(0x22, 0x41, "Ä"), Pair(0x22, 0x4F, "Ö"), Pair(0x22, 0x55, "Ü"),
    Pair(0x22, 0x61, "ä"), Pair(0x22, 0x6F, "ö"), Pair(0x22, 0x75, "ü"),
    Pair(0x27, 0x41, "Á"), Pair(0x27, 0x61, "á"),
    Pair(0x2F, 0x4F, "Ø"), Pair(0x2F, 0x6F, "ø"),
    Pair(0x3C, 0x33, "♥"),
    Pair(0x41, 0x41, "Å"), Pair(0x41, 0x45, "Æ"),
    Pair(0x4F, 0x43, "©"), Pair(0x4F, 0x52, "®"),
    Pair(0x73, 0x73, "ß"), Pair(0x61, 0x65, "æ"), Pair(0x61, 0x61, "å")]

  /** Two keys as one number. */
  function Code(keys: seq<Keysym>): int
    requires |keys| == 2
  {
    keys[0] as int * 0x2000_0000 + keys[1]
  }

  const CODES: seq<int> := [
    0x22 * 0x2000_0000 + 0x41, 0x22 * 0x2000_0000 + 0x4F, 0x22 * 0x2000_0000 + 0x55,
    0x22 * 0x2000_0000 + 0x61, 0x22 * 0x2000_0000 + 0x6F, 0x22 * 0x2000_0000 + 0x75,
    0x27 * 0x2000_0000 + 0x41, 0x27 * 0x2000_0000 + 0x61,
    0x2F * 0x2000_0000 + 0x4F, 0x2F * 0x2000_0000 + 0x6F,
    0x3C * 0x2000_0000 + 0x33,
    0x41 * 0x2000_0000 + 0x41, 0x41 * 0x2000_0000 + 0x45,
    0x4F * 0x2000_0000 + 0x43, 0x4F * 0x2000_0000 + 0x52]

  lemma CompareOne(a: Keysym, keys: seq<Keysym>)
    requires keys != []
    ensures Compare([a], keys) == if a != keys[0] then a as int - keys[0] else 0
  {
  }

  lemma CompareTwo(query: seq<Keysym>, keys: seq<Keysym>)
    requires |query| == |keys| == 2
    ensures Compare(query, keys) == if query[0] != keys[0] then query[0] as int - keys[0] else query[1] as int - keys[1]
  {
    assert query[1..] == [query[1]];
    CompareOne(query[1], keys[1..]);
  }

  lemma BeforeByCode(a: seq<Keysym>, b: seq<Keysym>)
    requires |a| == |b| == 2 && Code(a) < Code(b)
    ensures Before(a, b) && a != b
  {
  }

  lemma TableShape()
    ensures |TABLE| == 18 && forall i | 0 <= i < 18 :: |TABLE[i].keys| == 2
    ensures forall i | 0 <= i < 15 :: Code(TABLE[i].keys) == CODES[i]
  {
  }

  lemma CodesIncrease(i: nat, j: nat)
    requires i < j < 15
    ensures CODES[i] < CODES[j]
  {
  }

  /** The entries that a search looks at first, and the last three. */
  predicate Landmarks(table: Table) {
    && |table| == 18
    && table[9].keys == [0x2F, 0x6F] && table[14].keys == [0x4F, 0x52]
    && table[15].keys == [0x73, 0x73] && table[16].keys == [0x61, 0x65] && table[17].keys == [0x61, 0x61]
  }

  lemma TableLandmarks()
    ensures Landmarks(TABLE)
  {
  }

  /** What holds of runs of any usable table holds of the real one. */
  lemma TableRuns(events: seq<Event>)
    requires forall e <- events :: Legal(e)
    ensures var m := Run(TABLE, events);
      && Inv(TABLE, m)
      && (m.mode.Composing? ==> |m.mode.recorded| + 2 <= 4)
      && Commits(m.outputs) == m.started - m.cut - if m.mode.Composing? then 1 else 0
  {
    TableShape();
    RunInv(TABLE, events);
    BufferSuffices(TABLE, events);
  }

  /** All entries but the last three are in order. */
  lemma MostlySorted(i: nat, j: nat)
    requires i < j < 15
    ensures Before(TABLE[i].keys, TABLE[j].keys) && TABLE[i].keys != TABLE[j].keys
  {
    TableShape();
    CodesIncrease(i, j);
    BeforeByCode(TABLE[i].keys, TABLE[j].keys);
  }

  lemma SortedPart(l: nat, u: nat)
    requires l <= u <= 15
    ensures SortedBetween(TABLE, l, u)
  {
    TableShape();
    forall i, j | l <= i < j < u ensures Before(TABLE[i].keys, TABLE[j].keys) {
      MostlySorted(i, j);
    }
  }

  /** On which side of entry mid the entries are that start with the query. */
  lemma Side(query: seq<Keysym>, k: nat, mid: nat)
    requires k < 15 && mid < 15 && |TABLE| == 18 && Prefix(query, TABLE[k].keys)
    ensures Compare(query, TABLE[mid].keys) < 0 ==> k < mid
    ensures Compare(query, TABLE[mid].keys) > 0 ==> mid < k
  {
    var order := Compare(query, TABLE[mid].keys);
    CompareIff(query, TABLE[k].keys);
    if order < 0 && mid < k {
      MostlySorted(mid, k);
      BelowStaysBelow(query, TABLE[mid].keys, TABLE[k].keys);
    } else if order > 0 && k < mid {
      MostlySorted(k, mid);
      AboveStaysAbove(query, TABLE[k].keys, TABLE[mid].keys);
    }
  }

  /** What starts an entry in order is found, at an entry in order. */
  lemma FoundInOrder(query: seq<Keysym>, k: nat)
    requires k < 15 && |TABLE| == 18 && Prefix(query, TABLE[k].keys)
    ensures Search(TABLE, query, 0, 18).At? && Search(TABLE, query, 0, 18).i < 15
  {
    Side(query, k, 9);
    SortedPart(0, 9);
    SearchIff(TABLE, query, 0, 9);
    if Compare(query, TABLE[9].keys) > 0 {
      Side(query, k, 14);
      SortedPart(10, 14);
      SearchIff(TABLE, query, 10, 14);
      assert Search(TABLE, query, 0, 18) == Search(TABLE, query, 10, 18);
    }
  }

  /** Entries of equal length start one another only when they are equal. */
  lemma DifferentPairs(a: seq<Keysym>, b: seq<Keysym>)
    requires |a| == |b| && a != b
    ensures !Prefix(a, b) && !Prefix(b, a)
  {
  }

  lemma InOrderNoShift(k: nat)
    requires k < 15
    ensures k < |TABLE| && |TABLE[k].keys| == 2 && NoShift(TABLE[k].keys)
  {
    TableShape();
    var keys := TABLE[k].keys;
    assert Code(keys) == CODES[k] < 0x50 * 0x2000_0000;
    assert keys[0] < 0x50;
    assert keys[1] < 0x80;
  }

  /** Each of the first fifteen entries is composed by its two keys. */
  lemma InOrderComposes(k: nat)
    requires k < 15
    ensures k < |TABLE| && |TABLE[k].keys| == 2
    ensures Record(TABLE, [], TABLE[k].keys[0]).0 == Composing(TABLE[k].keys[..1])
    ensures Record(TABLE, TABLE[k].keys[..1], TABLE[k].keys[1]) == (Normal, Composed(k))
  {
    InOrderNoShift(k);
    TableShape();
    InOrderRecord(k, 0);
    InOrderRecord(k, 1);
    assert TABLE[k].keys[..0] == [];
  }

  lemma InOrderRecord(k: nat, j: nat)
    requires k < 15 && j < 2 && |TABLE| == 18 && |TABLE[k].keys| == 2 && NoShift(TABLE[k].keys)
    ensures var keys := TABLE[k].keys;
      var (mode, output) := Record(TABLE, keys[..j], keys[j]);
      if j == 0 then mode == Composing(keys[..1]) else mode.Normal? && output == Composed(k)
  {
    var keys := TABLE[k].keys;
    FoundInOrder(keys[..j + 1], k);
    var i := Search(TABLE, keys[..j + 1], 0, 18).i;
    TableShape();
    if i != k {
      MostlySorted(if i < k then i else k, if i < k then k else i);
      DifferentPairs(TABLE[i].keys, keys);
    }
    FoundComposes(TABLE, k, j, i);
  }

  lemma CompareHead(query: seq<Keysym>, keys: seq<Keysym>)
    requires query != [] && keys != [] && query[0] != keys[0]
    ensures Compare(query, keys) == query[0] as int - keys[0]
  {
  }

  lemma SearchRight(table: Table, query: seq<Keysym>, l: nat, u: nat)
    requires l < u <= |table| && Compare(query, table[(l + u) / 2].keys) > 0
    ensures Search(table, query, l, u) == Search(table, query, (l + u) / 2 + 1, u)
  {
  }

  lemma SearchLeft(table: Table, query: seq<Keysym>, l: nat, u: nat)
    requires l < u <= |table| && Compare(query, table[(l + u) / 2].keys) < 0
    ensures Search(table, query, l, u) == Search(table, query, l, (l + u) / 2)
  {
  }

  lemma SearchHits(table: Table, query: seq<Keysym>, l: nat, u: nat)
    requires l < u <= |table| && Compare(query, table[(l + u) / 2].keys) == 0
    ensures Search(table, query, l, u) == At((l + u) / 2)
  {
  }

  /** How the search goes for keys that sort behind the first fifteen entries. */
  lemma SearchBehind(table: Table, query: seq<Keysym>)
    requires Landmarks(table) && query != [] && query[0] > 0x4F
    ensures Search(table, query, 0, 18) == Search(table, query, 15, 18)
  {
    CompareHead(query, table[9].keys);
    CompareHead(query, table[14].keys);
    SearchRight(table, query, 0, 18);
    SearchRight(table, query, 10, 18);
  }

  lemma SearchS(table: Table, query: seq<Keysym>)
    requires Landmarks(table) && query != [] && query[0] == 0x73
    ensures Search(table, query, 0, 18) == Missing
  {
    SearchBehind(table, query);
    CompareHead(query, table[16].keys);
    CompareHead(query, table[17].keys);
    SearchRight(table, query, 15, 18);
    SearchRight(table, query, 17, 18);
  }

  lemma SearchA(table: Table)
    requires Landmarks(table)
    ensures Search(table, [0x61], 0, 18) == At(16)
  {
    SearchBehind(table, [0x61]);
    CompareOne(0x61, table[16].keys);
    SearchHits(table, [0x61], 15, 18);
  }

  lemma SearchAe(table: Table)
    requires Landmarks(table)
    ensures Search(table, [0x61, 0x65], 0, 18) == At(16)
  {
    SearchBehind(table, [0x61, 0x65]);
    CompareTwo([0x61, 0x65], table[16].keys);
    SearchHits(table, [0x61, 0x65], 15, 18);
  }

  lemma SearchAa(table: Table)
    requires Landmarks(table)
    ensures Search(table, [0x61, 0x61], 0, 18) == Missing
  {
    var query: seq<Keysym> := [0x61, 0x61];
    SearchBehind(table, query);
    CompareTwo(query, table[16].keys);
    CompareTwo(query, table[15].keys);
    SearchLeft(table, query, 15, 18);
    SearchLeft(table, query, 15, 16);
  }

  lemma SearchNothing(table: Table)
    requires Landmarks(table)
    ensures Search(table, [], 0, 18) == At(9)
  {
  }

  /** The entry for a and e, the last but one, is composed as well ... */
  lemma AeComposes(table: Table)
    requires Landmarks(table)
    ensures Record(table, [], 0x61).0 == Composing([0x61])
    ensures Record(table, [0x61], 0x65) == (Normal, Composed(16))
  {
    SearchA(table);
    SearchAe(table);
    assert Written([], 0x61) == [0x61] && Written([0x61], 0x65) == [0x61, 0x65];
  }

  /** ... but not the other two, for the table is out of order there: no keys whatever
      lead the search to them. */
  lemma UnreachableEntries(table: Table, query: seq<Keysym>)
    requires Landmarks(table)
    ensures Search(table, query, 0, 18) != At(15) && Search(table, query, 0, 18) != At(17)
  {
    SearchNothing(table);
    if Search(table, query, 0, 18) == At(15) && query != [] {
      assert query[0] == table[15].keys[0];
      SearchS(table, query);
    }
    if Search(table, query, 0, 18) == At(17) && query != [] {
      assert query == table[17].keys[..|query|];
      assert query == [0x61] || query == [0x61, 0x61];
      SearchA(table);
      SearchAa(table);
    }
  }

  /** The first s already ends composing, and so does a second a. */
  lemma EndsInstead(table: Table)
    requires Landmarks(table)
    ensures Record(table, [], 0x73) == (Normal, Plain([0x73]))
    ensures Record(table, [0x61], 0x61) == (Normal, Plain([0x61, 0x61]))
  {
    SearchS(table, [0x73]);
    SearchAa(table);
    assert Written([], 0x73) == [0x73] && Written([0x61], 0x61) == [0x61, 0x61];
  }

  // --------------------------------------------- what runs of the real table compose

  predicate Reachable(k: nat) {
    k < 18 && k != 15 && k != 17
  }

  ghost predicate OnlyReachable(outputs: seq<Output>) {
    forall o <- outputs :: o.Composed? ==> Reachable(o.entry)
  }

  lemma HandleReachable(mode: Mode, sym: int, released: bool, printable: bool)
    requires Symbol(sym)
    ensures OnlyReachable(Handle(TABLE, mode, sym, released, printable).1)
  {
    if mode.Composing? {
      TableLandmarks();
      UnreachableEntries(TABLE, Written(mode.recorded, sym));
    }
  }

  lemma {:induction false} RunReachable(events: seq<Event>)
    requires forall e <- events :: Legal(e)
    ensures OnlyReachable(Run(TABLE, events).outputs)
  {
    if events != [] {
      var most, last := events[..|events| - 1], events[|events| - 1];
      RunReachable(most);
      assert last in events;
      if last.Key? {
        HandleReachable(Run(TABLE, most).mode, last.sym, last.released, last.printable);
      }
    }
  }

  /** The compose key, then two keys. */
  function TwoKeys(a: Keysym, b: Keysym): seq<Event> {
    [Key(MULTI_KEY, true, false), Key(a, true, false), Key(b, true, false)]
  }

  lemma RunGoesOn(table: Table, events: seq<Event>, e: Event)
    requires (forall d <- events :: Legal(d)) && Legal(e)
    ensures Run(table, events + [e]) == Step(table, Run(table, events), e)
  {
    assert (events + [e])[..|events|] == events;
  }

  lemma RunOfTwoKeys(table: Table, a: Keysym, b: Keysym)
    ensures Run(table, TwoKeys(a, b))
      == Step(table, Step(table, Step(table, IDLE, Key(MULTI_KEY, true, false)), Key(a, true, false)),
             Key(b, true, false))
  {
    var start, first, second := Key(MULTI_KEY, true, false), Key(a, true, false), Key(b, true, false);
    assert [] + [start] == [start] && [start] + [first] == [start, first];
    assert [start, first] + [second] == TwoKeys(a, b);
    RunGoesOn(table, [], start);
    RunGoesOn(table, [start], first);
    RunGoesOn(table, [start, first], second);
  }

  lemma RecordedStep(table: Table, m: Machine, a: Keysym)
    requires m.mode.Composing?
    ensures var (mode, output) := Record(table, m.mode.recorded, a);
      var next := Step(table, m, Key(a, true, false));
      next.mode == mode && next.outputs == m.outputs + [output]
  {
  }

  lemma TwoKeysCompose(table: Table, k: nat, a: Keysym, b: Keysym)
    requires Record(table, [], a).0 == Composing([a]) && Record(table, [a], b) == (Normal, Composed(k))
    ensures Composed(k) in Run(table, TwoKeys(a, b)).outputs
  {
    RunOfTwoKeys(table, a, b);
    var m1 := Step(table, IDLE, Key(MULTI_KEY, true, false));
    assert m1.mode == Composing([]);
    RecordedStep(table, m1, a);
    RecordedStep(table, Step(table, m1, Key(a, true, false)), b);
  }

  /** Over all runs of the real table, exactly sixteen of its entries are ever composed. */
  lemma ComposedIff(k: nat)
    ensures (exists events :: (forall e <- events :: Legal(e)) && Composed(k) in Run(TABLE, events).outputs)
      <==> Reachable(k)
  {
    forall events | (forall e <- events :: Legal(e)) && Composed(k) in Run(TABLE, events).outputs ensures Reachable(k) {
      RunReachable(events);
    }
    if Reachable(k) {
      var a, b := ReachedBy(k);
      TwoKeysCompose(TABLE, k, a, b);
      assert forall e <- TwoKeys(a, b) :: Legal(e);
    }
  }

  lemma ReachedBy(k: nat) returns (a: Keysym, b: Keysym)
    requires Reachable(k)
    ensures Record(TABLE, [], a).0 == Composing([a]) && Record(TABLE, [a], b) == (Normal, Composed(k))
  {
    if k < 15 {
      InOrderComposes(k);
      a, b := TABLE[k].keys[0], TABLE[k].keys[1];
      assert TABLE[k].keys[..1] == [a];
    } else {
      TableLandmarks();
      AeComposes(TABLE);
      a, b := 0x61, 0x65;
    }
  }

  // ------------------------------------------------------------------------ the object

  class Im {
    const table: Table
    var composing: bool
    /** The keys recorded; the rest of the buffer of four is 0. */
    var keys: seq<Keysym>
    var outputs: seq<Output>
    ghost var started: nat
    ghost var cut: nat

    ghost function Value(): Machine
      reads this
    {
      Machine(if composing then Composing(keys) else Normal, outputs, started, cut)
    }

    ghost predicate Valid()
      reads this
    {
      Usable(table) && Inv(table, Value())
    }

    constructor (table: Table)
      requires Usable(table)
      ensures Valid() && this.table == table && Value() == IDLE
    {
      this.table, composing, keys, outputs, started, cut := table, false, [], [], 0, 0;
    }

    method HandleReset()
      requires Valid()
      modifies this
      ensures Valid() && Value() == Step(table, old(Value()), Reset)
    {
      cut := cut + if composing then 1 else 0;
      composing := false;
    }

    /** A key is released while composing. */
    method RecordKey(sym: int)
      requires Valid() && composing && Symbol(sym)
      modifies this`composing, this`keys, this`outputs
      ensures Value() == Step(table, old(Value()), Key(sym, true, false))
    {
      if sym == SHIFT_L || sym == SHIFT_R {
        outputs := outputs + [Forwarded(sym)];
        return;
      }
      BufferHasRoom();
      var i := |keys|;
      if sym != 0 {
        keys := keys + [sym];
      }
      var f := BinarySearch(table, keys);
      if f.At? {
        if |table[f.i].keys| <= i + 1 {
          outputs := outputs + [Composed(f.i)];
          composing := false;
        } else {
          outputs := outputs + [Preedit(table[f.i].keys[..i + 1])];
        }
      } else {
        outputs := outputs + [Plain(keys)];
        composing := false;
      }
    }

    /** The key is written at one of the places 0 to 2, so that a 0 stays behind it. */
    lemma BufferHasRoom()
      requires Valid() && composing
      ensures |keys| <= 2
    {
      var i :| Leads(table, keys, i);
    }

    method HandleKey(sym: int, released: bool, printable: bool)
      requires Valid() && Symbol(sym)
      modifies this
      ensures Valid() && Value() == Step(table, old(Value()), Key(sym, released, printable))
    {
      StepInv(table, Value(), Key(sym, released, printable));
      if sym == MULTI_KEY && released && !composing {
        composing, keys := true, [];
        started := started + 1;
      } else if composing {
        if released {
          RecordKey(sym);
        }
      } else if !printable {
        outputs := outputs + [Forwarded(sym)];
      } else if released {
        outputs := outputs + [Typed(sym)];
      }
    }
  }
}
