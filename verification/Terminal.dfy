/** The one terminal line an interactive shell edits: byte cells, a cursor, and the lines
    already finished above it. Cells are counted from the end of the prompt; the line is
    taken to be as wide as it needs to be. */
module Terminal {
  import opened Bytes

  const BACKSPACE: byte := 8
  const NEWLINE: byte := 10
  const BLANK: byte := 0x20
  const DELETE: byte := 0x7F
  const ERASE: seq<byte> := [8, 0x20, 8]

  predicate Printable(c: byte) { c >= 0x20 && c != DELETE }

  predicate AllPrintable(s: seq<byte>) { forall i | 0 <= i < |s| :: Printable(s[i]) }

  datatype Screen = Screen(above: seq<seq<byte>>, cells: seq<byte>, cursor: nat)

  /** One byte of output. */
  function Put(s: Screen, c: byte): (r: Screen) {
    if c == BACKSPACE then s.(cursor := if s.cursor > 0 then s.cursor - 1 else 0)
    else if c == NEWLINE then Screen(s.above + [s.cells], [], 0)
    else if s.cursor < |s.cells| then s.(cells := s.cells[s.cursor := c], cursor := s.cursor + 1)
    else s.(cells := s.cells + seq(s.cursor - |s.cells|, _ => BLANK) + [c], cursor := s.cursor + 1)
  }

  function Print(s: Screen, out: seq<byte>): (r: Screen)
    decreases |out|
  {
    if out == [] then s else Print(Put(s, out[0]), out[1..])
  }

  /** The line reads `text`, with the cursor after it and nothing but blanks beyond. */
  ghost predicate Shows(s: Screen, text: seq<byte>) {
    && s.cursor == |text| <= |s.cells| && s.cells[..|text|] == text
    && forall k | |text| <= k < |s.cells| :: s.cells[k] == BLANK
  }

  lemma EchoShows(s: Screen, text: seq<byte>, c: byte)
    requires Shows(s, text) && Printable(c)
    ensures Shows(Put(s, c), text + [c]) && Put(s, c).above == s.above
  {
    var t := Put(s, c);
    assert t.cells[..|text|] == s.cells[..|text|];
    assert t.cells[..|text| + 1] == t.cells[..|text|] + [t.cells[|text|]];
  }

  lemma {:induction false} PrintShows(s: Screen, text: seq<byte>, out: seq<byte>)
    requires Shows(s, text) && AllPrintable(out)
    ensures Shows(Print(s, out), text + out) && Print(s, out).above == s.above
    decreases |out|
  {
    hide Shows, Put;
    if out == [] {
      assert text + out == text;
    } else {
      EchoShows(s, text, out[0]);
      PrintShows(Put(s, out[0]), text + [out[0]], out[1..]);
      assert text + [out[0]] + out[1..] == text + out;
    }
  }

  /** Back up, overwrite with a blank, back up again. */
  lemma EraseShows(s: Screen, text: seq<byte>)
    requires Shows(s, text) && text != []
    ensures Shows(Print(s, ERASE), text[..|text| - 1]) && Print(s, ERASE).above == s.above
  {
    var a := Put(s, BACKSPACE);
    var b := Put(a, BLANK);
    var c := Put(b, BACKSPACE);
    assert Print(s, ERASE) == c by {
      assert ERASE[1..] == [BLANK, BACKSPACE] && [BLANK, BACKSPACE][1..] == [BACKSPACE];
      assert Print(b, [BACKSPACE]) == c;
    }
    assert c.cells == s.cells[|text| - 1 := BLANK] && c.cursor == |text| - 1;
    assert s.cells[..|text|][..|text| - 1] == s.cells[..|text| - 1];
  }
}
