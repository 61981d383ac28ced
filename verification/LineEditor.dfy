/** The interactive line reader: echo, erase and history recall over a fixed buffer, with
    the terminal line kept equal to the buffer after every key. */
module LineEditor {
  import opened Bytes
  import opened Terminal
  import opened History

  const KEY_UP: byte := 0x13
  const KEY_DOWN: byte := 0x14
  const CTRL_C: byte := 0x03
  const CTRL_D: byte := 0x04
  const RETURN: byte := 13

  datatype Outcome = More | Done(line: seq<byte>) | Abandoned | Left

  // ---- what each key means --------------------------------------------------------------------

  /** The line being edited, how far back in history it was recalled from, and the history. */
  datatype Edit = Edit(text: seq<byte>, browse: nat, history: seq<seq<byte>>)

  function Recall(cap: nat, e: Edit, browse: nat): (r: Edit)
    requires cap > 0 && browse <= |e.history|
  {
    var line := if browse == 0 then [] else e.history[|e.history| - browse];
    e.(browse := browse, text := if |line| >= cap then line[..cap - 1] else line)
  }

  function Press(cap: nat, e: Edit, c: byte): (r: (Edit, Outcome))
    requires cap > 0 && e.browse <= |e.history|
  {
    if c == NEWLINE || c == RETURN then (Edit([], 0, Recorded(e.history, e.text)), Done(e.text))
    else if c == BACKSPACE || c == DELETE then
      (if e.text == [] then e else e.(text := e.text[..|e.text| - 1]), More)
    else if c == KEY_UP then (if e.browse < |e.history| then Recall(cap, e, e.browse + 1) else e, More)
    else if c == KEY_DOWN then (if e.browse > 0 then Recall(cap, e, e.browse - 1) else e, More)
    else if c == CTRL_D then (e, if e.text == [] then Left else More)
    else if c == CTRL_C then (Edit([], 0, e.history), Abandoned)
    else if c < 0x20 then (e, More)
    else if |e.text| + 1 < cap then (Edit(e.text + [c], 0, e.history), More)
    else (e, More)
  }

  /** Every history entry is something that was typed. */
  predicate Typed(history: seq<seq<byte>>) {
    forall i | 0 <= i < |history| :: history[i] != [] && AllPrintable(history[i]) && |history[i]| < LINE_MAX
  }

  predicate EditOk(cap: nat, e: Edit) {
    |e.text| < cap && AllPrintable(e.text) && e.browse <= |e.history| && Typed(e.history) && |e.history| <= SLOTS
  }

  /** A key keeps the line printable and inside the buffer, and the history index in range. */
  lemma PressKeeps(cap: nat, e: Edit, c: byte)
    requires cap > 0 && EditOk(cap, e)
    ensures EditOk(cap, Press(cap, e, c).0)
  {
    if c == NEWLINE || c == RETURN {
      RecordedTyped(e.history, e.text);
    }
  }

  lemma RecordedTyped(history: seq<seq<byte>>, line: seq<byte>)
    requires Typed(history) && AllPrintable(line) && |history| <= SLOTS
    ensures Typed(Recorded(history, line)) && |Recorded(history, line)| <= SLOTS
  {
  }

  /** A finished row reads `line`, blanks aside. */
  ghost predicate RowShows(row: seq<byte>, line: seq<byte>) {
    |line| <= |row| && row[..|line|] == line && forall k | |line| <= k < |row| :: row[k] == BLANK
  }

  /** The line break pushes up a row that reads what the line read. */
  lemma BreakShows(s: Screen, text: seq<byte>)
    requires Shows(s, text)
    ensures var t := Put(s, NEWLINE);
            |t.above| == |s.above| + 1 && t.above[..|s.above|] == s.above && RowShows(t.above[|s.above|], text) && Shows(t, [])
  {
  }

  /** What the keys up to the first that ends the line come to, and how many they are;
      running out of input leaves as well. */
  function Typing(cap: nat, e: Edit, keys: seq<byte>): (r: (Edit, Outcome, nat))
    requires cap > 0 && EditOk(cap, e)
    ensures r.2 <= |keys|
    decreases |keys|
  {
    if keys == [] then (e, Left, 0)
    else
      var p := Press(cap, e, keys[0]);
      PressKeeps(cap, e, keys[0]);
      if p.1 != More then (p.0, p.1, 1)
      else
        var rest := Typing(cap, p.0, keys[1..]);
        (rest.0, rest.1, rest.2 + 1)
  }

  /** Text typed and entered comes back as the line, and one step up in history shows it
      again. */
  lemma {:induction false} TypeAndEnter(cap: nat, e: Edit, text: seq<byte>)
    requires cap > 0 && EditOk(cap, e) && AllPrintable(text) && |e.text| + |text| < cap
    ensures var r := Typing(cap, e, text + [NEWLINE]);
            r.1 == Done(e.text + text) && r.2 == |text| + 1 && r.0 == Edit([], 0, Recorded(e.history, e.text + text))
    decreases |text|
  {
    hide Recorded;
    if text == [] {
      assert text + [NEWLINE] == [NEWLINE] && e.text + text == e.text;
    } else {
      var e' := Press(cap, e, text[0]).0;
      assert e' == Edit(e.text + [text[0]], 0, e.history);
      TypeAndEnter(cap, e', text[1..]);
      assert (text + [NEWLINE])[1..] == text[1..] + [NEWLINE] && (text + [NEWLINE])[0] == text[0];
      assert e.text + text == e.text + [text[0]] + text[1..];
    }
  }

  lemma RecallsLast(cap: nat, history: seq<seq<byte>>, line: seq<byte>)
    requires line != [] && |line| < cap && |line| < LINE_MAX
    ensures Press(cap, Edit([], 0, Recorded(history, line)), KEY_UP) ==
              (Edit(line, 1, Recorded(history, line)), More)
  {
  }

  /** What is edited after some keys that do not end the line. */
  function Pressed(cap: nat, e: Edit, keys: seq<byte>): (r: Edit)
    requires cap > 0 && EditOk(cap, e)
    ensures EditOk(cap, r)
    decreases |keys|
  {
    if keys == [] then e
    else
      PressKeeps(cap, e, keys[0]);
      Pressed(cap, Press(cap, e, keys[0]).0, keys[1..])
  }

  function Times(key: byte, n: nat): (r: seq<byte>)
    ensures |r| == n && forall i | 0 <= i < n :: r[i] == key
  {
    seq(n, _ => key)
  }

  /** The entry `back` steps before the present line, as far as it fits; none for no steps. */
  function Shown(cap: nat, history: seq<seq<byte>>, back: nat): (r: seq<byte>)
    requires cap > 0 && back <= |history|
  {
    if back == 0 then []
    else
      var line := history[|history| - back];
      if |line| < cap then line else line[..cap - 1]
  }

  /** Going up any number of times shows the entry that far back, or the oldest. */
  lemma {:induction false} UpShows(cap: nat, e: Edit, n: nat)
    requires cap > 0 && EditOk(cap, e) && n > 0 && e.browse < |e.history|
    ensures var back := if e.browse + n <= |e.history| then e.browse + n else |e.history|;
            Pressed(cap, e, Times(0x13, n)) == Edit(Shown(cap, e.history, back), back, e.history)
    decreases n
  {
    hide Typed, AllPrintable;
    var keys := Times(0x13, n);
    var up := Press(cap, e, keys[0]).0;
    PressKeeps(cap, e, keys[0]);
    assert up == Edit(Shown(cap, e.history, e.browse + 1), e.browse + 1, e.history);
    assert keys[1..] == Times(0x13, n - 1);
    if n == 1 {
      assert Times(0x13, 0) == [];
    } else if up.browse < |e.history| {
      UpShows(cap, up, n - 1);
    } else {
      AtOldest(cap, up, n - 1);
    }
  }

  lemma {:induction false} AtOldest(cap: nat, e: Edit, n: nat)
    requires cap > 0 && EditOk(cap, e) && e.browse == |e.history|
    ensures Pressed(cap, e, Times(0x13, n)) == e
    decreases n
  {
    if n == 0 {
    } else {
      assert Times(0x13, n)[1..] == Times(0x13, n - 1);
      AtOldest(cap, e, n - 1);
    }
  }

  /** Going down again shows the entry one nearer, and past the newest an empty line. */
  lemma DownShows(cap: nat, e: Edit)
    requires cap > 0 && EditOk(cap, e) && e.browse > 0
    ensures Press(cap, e, 0x14) == (Edit(Shown(cap, e.history, e.browse - 1), e.browse - 1, e.history), More)
  {
  }

  /** Backspace, or delete, takes back the character just typed. */
  lemma EraseTakesBack(cap: nat, e: Edit, c: byte, erase: byte)
    requires cap > 0 && EditOk(cap, e) && 0x20 <= c && c != 0x7F && |e.text| + 1 < cap
    requires erase == 0x08 || erase == 0x7F
    ensures Pressed(cap, e, [c, erase]) == Edit(e.text, 0, e.history)
    ensures Press(cap, e, c) == (Edit(e.text + [c], 0, e.history), More)
  {
    PressKeeps(cap, e, c);
    var typed := Press(cap, e, c).0;
    assert typed.text[..|typed.text| - 1] == e.text;
    assert [c, erase][1..] == [erase] && [erase][1..] == [];
    PressKeeps(cap, typed, erase);
    assert Pressed(cap, typed, [erase]) == Press(cap, typed, erase).0;
  }

  /** An abandoned line leaves nothing behind: going up recalls what it would have recalled. */
  lemma AbandonForgets(cap: nat, e: Edit)
    requires cap > 0 && EditOk(cap, e)
    ensures Press(cap, e, 0x03) == (Edit([], 0, e.history), Abandoned)
    ensures e.history != [] ==> Press(cap, Press(cap, e, 0x03).0, 0x13).0.text == Shown(cap, e.history, 1)
  {
  }

  lemma RecallKeeps(cap: nat, e: Edit, to: nat)
    requires cap > 0 && EditOk(cap, e) && to <= |e.history|
    ensures EditOk(cap, Recall(cap, e, to))
    ensures to > 0 ==> AllPrintable(e.history[|e.history| - to])
  {
  }

  // ---- the reader -----------------------------------------------------------------------------------

  class Reader {
    const cap: nat
    const buf: array<byte>
    const ring: Ring
    var len: nat
    var browse: nat
    var screen: Screen

    ghost predicate Valid()
      reads this, buf, ring, ring.slots
    {
      && cap > 0 && buf.Length == cap && ring.Valid() && len < cap && browse <= ring.count
      && (buf as object) != (ring.slots as object)
      && EditOk(cap, State()) && Shows(screen, buf[..len])
    }

    ghost function State(): (r: Edit)
      requires buf.Length == cap && len <= cap && ring.Valid()
      reads this, buf, ring, ring.slots
    {
      Edit(buf[..len], browse, ring.Entries())
    }

    /** A fresh prompt over an existing history. */
    constructor (cap: nat, ring: Ring)
      requires cap > 0 && ring.Valid() && Typed(ring.Entries())
      ensures Valid() && fresh(buf) && this.ring == ring && this.cap == cap
      ensures State() == Edit([], 0, ring.Entries()) && screen == Screen([], [], 0)
    {
      this.cap := cap;
      this.ring := ring;
      buf := new byte[cap](_ => 0);
      len, browse := 0, 0;
      screen := Screen([], [], 0);
    }

    /** Erase one character on screen. */
    method EraseOne()
      requires buf.Length == cap && 0 < len < cap && Shows(screen, buf[..len])
      modifies this`len, this`screen
      ensures len == old(len) - 1 && Shows(screen, buf[..len]) && screen.above == old(screen.above)
    {
      EraseShows(screen, buf[..len]);
      assert buf[..len][..len - 1] == buf[..len - 1];
      len := len - 1;
      screen := Print(screen, ERASE);
    }

    /** Wipe the line and put `text` there, cut to the buffer. */
    method Replace(text: Option<seq<byte>>)
      requires cap > 0 && buf.Length == cap && len < cap && Shows(screen, buf[..len])
      requires text.Some? ==> AllPrintable(text.value)
      modifies this`len, this`screen, buf
      ensures len < cap && Shows(screen, buf[..len]) && screen.above == old(screen.above)
      ensures buf[..len] == match text { case None => [] case Some(t) => if |t| >= cap then t[..cap - 1] else t }
    {
      hide Shows;
      while len > 0
        invariant len < cap && Shows(screen, buf[..len]) && screen.above == old(screen.above)
        decreases len
      {
        EraseOne();
      }
      if text.None? {
        buf[0] := 0;
        return;
      }
      var t := text.value;
      var n := |t|;
      if n >= cap { n := cap - 1; }
      forall k | 0 <= k < n { buf[k] := t[k]; }
      assert buf[..n] == t[..n];
      buf[n] := 0;
      assert buf[..n] == t[..n];
      len := n;
      PrintShows(screen, [], t[..n]);
      assert [] + t[..n] == t[..n];
      screen := Print(screen, buf[..n]);
    }

    /** Show history entry `browse` steps back, or the empty line for none. */
    method Browse(to: nat)
      requires Valid() && to <= ring.count
      modifies this`len, this`screen, this`browse, buf
      ensures Valid() && State() == Recall(cap, old(State()), to) && screen.above == old(screen.above)
    {
      hide Shows, AllPrintable, EditOk, Ring.Entries, Ring.Valid;
      RecallKeeps(cap, State(), to);
      browse := to;
      var line: Option<seq<byte>> := None;
      if to > 0 { line := ring.Get(ring.count - to); }
      ghost var entries := ring.Entries();
      Replace(line);
      assert ring.Entries() == entries;
    }

    method Enter() returns (r: Outcome)
      requires Valid()
      modifies this`len, this`screen, this`browse, buf, ring, ring.slots
      ensures Valid() && r == Done(old(State()).text) && ring.slots == old(ring.slots)
      ensures State() == Edit([], 0, Recorded(old(State()).history, old(State()).text))
      ensures |screen.above| == |old(screen.above)| + 1 && screen.above[..|old(screen.above)|] == old(screen.above)
      ensures RowShows(screen.above[|old(screen.above)|], r.line)
    {
      hide Shows, RowShows;
      var line := buf[..len];
      BreakShows(screen, line);
      screen := Put(screen, NEWLINE);
      buf[len] := 0;
      assert buf[..len] == line;
      ghost var history := ring.Entries();
      RecordedTyped(history, line);
      ring.Push(line);
      r := Done(line);
      len, browse := 0, 0;
      assert buf[..0] == [];
    }

    method Abandon() returns (r: Outcome)
      requires Valid()
      modifies this`len, this`screen, this`browse, buf
      ensures Valid() && r == Abandoned && State() == Edit([], 0, old(State()).history)
    {
      hide Shows;
      ghost var history := ring.Entries();
      PrintShows(screen, buf[..len], [0x5E, 0x43]);
      screen := Print(screen, [0x5E, 0x43]);
      BreakShows(screen, buf[..len] + [0x5E, 0x43]);
      screen := Put(screen, NEWLINE);
      buf[0] := 0;
      len, browse := 0, 0;
      assert buf[..0] == [];
      assert ring.Entries() == history;
      r := Abandoned;
    }

    method Insert(c: byte)
      requires Valid() && Printable(c) && len + 1 < cap
      modifies this`len, this`screen, this`browse, buf
      ensures Valid() && State() == Edit(old(State()).text + [c], 0, old(State()).history)
      ensures screen.above == old(screen.above)
    {
      hide Shows;
      ghost var was, history := buf[..len], ring.Entries();
      EchoShows(screen, was, c);
      buf[len] := c;
      len := len + 1;
      assert buf[..len] == was + [c];
      screen := Put(screen, c);
      browse := 0;
      assert ring.Entries() == history;
    }

    /** One key: the state changes as `Press` says, and because `Valid` holds again, the
        screen reads the buffer again. Only the keys that end a line move the rows above. */
    method Key(c: byte) returns (r: Outcome)
      requires Valid()
      modifies this`len, this`screen, this`browse, buf, ring, ring.slots
      ensures Valid() && (State(), r) == Press(cap, old(State()), c) && ring.slots == old(ring.slots)
      ensures r.More? || r.Left? ==> screen.above == old(screen.above)
      ensures r.Done? ==> |screen.above| == |old(screen.above)| + 1
                          && RowShows(screen.above[|old(screen.above)|], r.line)
    {
      hide Shows, RowShows, Recorded, AllPrintable, Typed;
      r := More;
      if c == NEWLINE || c == RETURN {
        r := Enter();
      } else if c == BACKSPACE || c == DELETE {
        if len > 0 { EraseLast(); }
      } else if c == KEY_UP {
        if browse < ring.count { Browse(browse + 1); }
      } else if c == KEY_DOWN {
        if browse > 0 { Browse(browse - 1); }
      } else if c == CTRL_D {
        if len == 0 { r := Left; }
      } else if c == CTRL_C {
        r := Abandon();
      } else if c >= 0x20 {
        if len + 1 < cap { Insert(c); }
      }
    }

    method EraseLast()
      requires Valid() && len > 0
      modifies this`len, this`screen
      ensures Valid() && screen.above == old(screen.above)
      ensures State() == old(State()).(text := old(State()).text[..|old(State()).text| - 1])
    {
      hide Shows;
      ghost var was, history := buf[..len], ring.Entries();
      EraseOne();
      assert buf[..len] == was[..|was| - 1];
      assert ring.Entries() == history;
    }

    /** Read one line from the keys: the result is what was on screen. */
    method ReadLine(keys: seq<byte>) returns (r: Outcome, used: nat)
      requires Valid()
      modifies this`len, this`screen, this`browse, buf, ring, ring.slots
      ensures Valid() && (State(), r, used) == Typing(cap, old(State()), keys)
      ensures r.Done? ==> |screen.above| == |old(screen.above)| + 1
                          && RowShows(screen.above[|old(screen.above)|], r.line)
    {
      hide Shows, RowShows, Press, EditOk;
      used := 0;
      ghost var start := State();
      ghost var all := Typing(cap, start, keys);
      StateOk();
      while used < |keys|
        invariant Valid() && used <= |keys| && ring.slots == old(ring.slots) && screen.above == old(screen.above)
        invariant EditOk(cap, State())
        invariant var rest := Typing(cap, State(), keys[used..]); all == (rest.0, rest.1, rest.2 + used)
      {
        ghost var before := State();
        r := Key(keys[used]);
        PressKeeps(cap, before, keys[used]);
        used := used + 1;
        assert keys[used - 1..][1..] == keys[used..];
        if r != More { return; }
      }
      r := Left;
    }

    lemma StateOk()
      requires Valid()
      ensures EditOk(cap, State())
    {
    }
  }
}
