/**
 What clients/simple-im.c makes of the keys it gets: typed text one key a stroke, and
 composed keys neither lost nor changed.
 */
module SimpleImKeys {
  import opened SimpleIm

  // ----------------------------------------------------------------- plain typing

  /** A key is pressed and released. */
  function Stroke(sym: int): seq<Event> {
    [Key(sym, false, true), Key(sym, true, true)]
  }

  function Strokes(syms: seq<int>): seq<Event> {
    if syms == [] then [] else Strokes(syms[..|syms| - 1]) + Stroke(syms[|syms| - 1])
  }

  function Typings(syms: seq<int>): seq<Output> {
    seq(|syms|, i requires 0 <= i < |syms| => Typed(syms[i]))
  }

  predicate Typable(sym: int) {
    Symbol(sym) && sym != MULTI_KEY
  }

  lemma {:induction false} StrokesLegal(syms: seq<int>)
    requires forall sym <- syms :: Typable(sym)
    ensures forall e <- Strokes(syms) :: Legal(e)
  {
    if syms != [] {
      StrokesLegal(syms[..|syms| - 1]);
      assert syms[|syms| - 1] in syms;
    }
  }

  /** A key with text of its own is committed on its release, not on its press. */
  lemma StrokeTypes(table: Table, m: Machine, sym: int)
    requires m.mode.Normal? && Typable(sym)
    ensures Step(table, m, Key(sym, false, true)) == m
    ensures Step(table, m, Key(sym, true, true)) == m.(outputs := m.outputs + [Typed(sym)])
  {
    assert m.outputs + [] == m.outputs;
  }

  /** A key without any is passed on, on both. */
  lemma StrokeForwards(table: Table, m: Machine, sym: int, released: bool)
    requires m.mode.Normal? && Typable(sym)
    ensures Step(table, m, Key(sym, released, false)) == m.(outputs := m.outputs + [Forwarded(sym)])
  {
  }

  /** Typing commits each key once, in order. */
  lemma {:induction false} StrokesType(table: Table, syms: seq<int>)
    requires forall sym <- syms :: Typable(sym)
    ensures (StrokesLegal(syms); Run(table, Strokes(syms)) == IDLE.(outputs := Typings(syms)))
  {
    StrokesLegal(syms);
    if syms == [] {
      assert Typings(syms) == [];
    } else {
      var most, last := syms[..|syms| - 1], syms[|syms| - 1];
      assert last in syms;
      StrokesLegal(most);
      StrokesType(table, most);
      StrokeMore(table, Strokes(most), Run(table, Strokes(most)), last);
      assert Typings(syms) == Typings(most) + [Typed(last)];
    }
  }

  lemma StrokeMore(table: Table, events: seq<Event>, m: Machine, sym: int)
    requires (forall e <- events :: Legal(e)) && Typable(sym)
    requires Run(table, events) == m && m.mode.Normal?
    ensures (forall e <- events + Stroke(sym) :: Legal(e))
    ensures Run(table, events + Stroke(sym)) == m.(outputs := m.outputs + [Typed(sym)])
  {
    var press, release := Key(sym, false, true), Key(sym, true, true);
    StrokeTypes(table, m, sym);
    RunGoesOn(table, events, press);
    RunGoesOn(table, events + [press], release);
    assert events + Stroke(sym) == events + [press] + [release];
  }

  // -------------------------------------------------------------------- composing

  /** Presses are swallowed while composing. */
  lemma PressSwallowed(table: Table, m: Machine, sym: int, printable: bool)
    requires m.mode.Composing? && Symbol(sym)
    ensures Step(table, m, Key(sym, false, printable)) == m
  {
    assert m.outputs + [] == m.outputs;
  }

  /** A released symbol goes behind the recorded ones, and they are shown, committed as
      they are, or are just the keys of the entry composed; Shift is passed on. */
  lemma KeysKept(table: Table, recorded: seq<Keysym>, sym: int)
    requires Symbol(sym) && sym != 0
    ensures var (mode, output) := Record(table, recorded, sym);
      if sym == SHIFT_L || sym == SHIFT_R then mode == Composing(recorded) && output == Forwarded(sym)
      else
        var keys := recorded + [sym];
        || (mode == Composing(keys) && output == Preedit(keys))
        || (mode == Normal && output == Plain(keys))
        || (mode == Normal && output.Composed? && output.entry < |table| && table[output.entry].keys == keys)
  {
    var keys := Written(recorded, sym);
    var f := Search(table, keys, 0, |table|);
    if f.At? {
      assert table[f.i].keys[..|keys|] == keys;
    }
  }
}
