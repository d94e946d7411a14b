/**
 What typing on clients/keyboard.c writes: the editor's text and the preedit together
 are what the keys say.
 */
module KeyboardTyping {
  import opened Utf8
  import opened TextEntry
  import opened TextEntryRuns
  import opened TextEntrySerials
  import opened KeyboardText

  /** All that was typed, of which the last bytes are not committed yet. */
  datatype Draft = Draft(text: Text, tail: nat)

  function WithoutLast(text: Text): Text {
    var start := PrevChar(text, |text|);
    if start.At? then text[..start.p] else text
  }

  /** Letters are added, a space is added and commits, backspace takes a byte that is not
      committed or else the last character. */
  function Edited(d: Draft, act: Act): Draft {
    match act
    case Type(letters) => Draft(d.text + letters, d.tail + |letters|)
    case Space => Draft(d.text + BLANK, 0)
    case Erase =>
      if 0 < d.tail <= |d.text| then Draft(d.text[..|d.text| - 1], d.tail - 1)
      else Draft(WithoutLast(d.text), 0)
  }

  function AllEdited(d: Draft, acts: seq<Act>): Draft
    decreases |acts|
  {
    if acts == [] then d else AllEdited(Edited(d, acts[0]), acts[1..])
  }

  /** A keyboard whose shadow's cursor is at the end. */
  predicate Appending(k: Keyboard) {
    k.shadow.Shadow? && k.shadow.cursor == |k.shadow.text|
  }

  function DraftOf(k: Keyboard): Draft
    requires Appending(k)
  {
    Draft(k.shadow.text + k.preedit, |k.preedit|)
  }

  lemma PressEdits(k: Keyboard, act: Act)
    requires Appending(k)
    ensures var l := Pressed(k, act).0; Appending(l) && DraftOf(l) == Edited(DraftOf(k), act)
  {
    var text, p := k.shadow.text, k.preedit;
    match act
    case Type(letters) =>
      assert text + (p + letters) == text + p + letters;
    case Space =>
      assert text + (p + BLANK) == text + p + BLANK;
      assert Spliced(text, |text|, |text|, p + BLANK) == text + (p + BLANK);
    case Erase =>
      if p == [] {
        assert text + p == text;
      } else {
        assert (text + p)[..|text + p| - 1] == text + p[..|p| - 1];
      }
  }

  lemma {:induction false} PressesEdit(k: Keyboard, acts: seq<Act>)
    requires Appending(k)
    ensures var l := AllPressed(k, acts).0; Appending(l) && DraftOf(l) == AllEdited(DraftOf(k), acts)
    decreases |acts|
  {
    if acts != [] {
      PressEdits(k, acts[0]);
      PressesEdit(Pressed(k, acts[0]).0, acts[1..]);
    }
  }

  /** After any run of presses at the end of the text, the editor's text followed by the
      preedit is what the keys say. */
  lemma TypingWrites(k: Keyboard, e: Entry, m: nat, acts: seq<Act>)
    requires AtEnd(k, e, m) && e.updates + 2 * |acts| < e.reset_at + U32
    requires |e.text| + |k.preedit| + Typed(acts) < LIMIT
    ensures var (l, requests) := AllPressed(k, acts);
      var o := Run(e, Messages(requests));
      && o.Live?
      && Draft(o.entry.text + l.preedit, |l.preedit|) == AllEdited(Draft(e.text + k.preedit, |k.preedit|), acts)
  {
    TypingStaysSynced(k, e, m, acts);
    PressesEdit(k, acts);
  }
}
