/** The shell's history: a ring of fixed slots whose oldest entry falls off. Lines are byte
    strings without their terminator. */
module History {
  import opened Bytes

  const SLOTS := 32
  const LINE_MAX := 512

  function Last<T>(s: seq<T>): (r: T) requires s != [] { s[|s| - 1] }

  /** What recording a line does to the list of entries, oldest first: nothing for an empty
      line or a repeat of the newest. */
  function Recorded(entries: seq<seq<byte>>, line: seq<byte>): (r: seq<seq<byte>>)
    ensures |r| <= if |entries| < SLOTS then |entries| + 1 else |entries|
  {
    if line == [] || (entries != [] && Last(entries) == line) then entries
    else
      var kept := if |line| >= LINE_MAX then line[..LINE_MAX - 1] else line;
      (if |entries| < SLOTS then entries else entries[1..]) + [kept]
  }

  /** The list after recording lines one after the other. */
  function RecordedAll(lines: seq<seq<byte>>): (r: seq<seq<byte>>) {
    if lines == [] then [] else Recorded(RecordedAll(lines[..|lines| - 1]), Last(lines))
  }

  /** Lines worth recording: none empty, none too long, none a repeat of the one before. */
  predicate Worthwhile(lines: seq<seq<byte>>) {
    && (forall i | 0 <= i < |lines| :: lines[i] != [] && |lines[i]| < LINE_MAX)
    && (forall i | 0 < i < |lines| :: lines[i] != lines[i - 1])
  }

  /** Of such lines the history keeps the newest 32, in order. */
  lemma {:induction false} KeepsNewest(lines: seq<seq<byte>>)
    requires Worthwhile(lines)
    ensures RecordedAll(lines) == lines[if |lines| <= 32 then 0 else |lines| - 32..]
  {
    if lines == [] {
    } else {
      KeepsNewest(lines[..|lines| - 1]);
      KeepsNext(lines, RecordedAll(lines[..|lines| - 1]));
    }
  }

  lemma KeepsNext(lines: seq<seq<byte>>, kept: seq<seq<byte>>)
    requires Worthwhile(lines) && lines != []
    requires var n := |lines| - 1; kept == lines[..n][if n <= 32 then 0 else n - 32..]
    ensures Recorded(kept, Last(lines)) == lines[if |lines| <= 32 then 0 else |lines| - 32..]
  {
    var n := |lines| - 1;
    if n > 0 { assert Last(kept) == lines[n - 1] != lines[n]; }
    assert (if |kept| < SLOTS then kept else kept[1..]) == lines[if n < 32 then 0 else n - 31..n];
  }

  /** An empty line and a repeat of the newest are not recorded. */
  lemma NotRecorded(entries: seq<seq<byte>>, line: seq<byte>)
    requires line == [] || (entries != [] && entries[|entries| - 1] == line)
    ensures Recorded(entries, line) == entries
  {
  }

  /** Logical index, oldest first, to ring slot. */
  function SlotOf(head: nat, count: nat, i: nat): (r: nat)
    requires count <= SLOTS
    ensures r < SLOTS
  {
    (head - count + i + 2 * SLOTS) % SLOTS
  }

  lemma SlotIs(head: nat, count: nat, i: nat)
    requires head < SLOTS && i < count <= SLOTS
    ensures SlotOf(head, count, i) == if head + i >= count then head + i - count else head + i - count + SLOTS
  {
  }

  /** Advancing the head renumbers the entries and leaves the written slot last. */
  lemma Shifted(head: nat, count: nat)
    requires head < SLOTS && count <= SLOTS
    ensures var h, c := (head + 1) % SLOTS, if count < SLOTS then count + 1 else count;
            && SlotOf(h, c, c - 1) == head
            && forall i | 0 <= i < c - 1 ::
                 SlotOf(h, c, i) == SlotOf(head, count, if count < SLOTS then i else i + 1) && SlotOf(h, c, i) != head
  {
    var h, c := (head + 1) % SLOTS, if count < SLOTS then count + 1 else count;
    SlotIs(h, c, c - 1);
    forall i | 0 <= i < c - 1
      ensures SlotOf(h, c, i) == SlotOf(head, count, if count < SLOTS then i else i + 1) && SlotOf(h, c, i) != head
    {
      SlotIs(h, c, i);
      SlotIs(head, count, if count < SLOTS then i else i + 1);
    }
  }

  /** The live entries of a ring, oldest first. */
  function Live(slots: seq<seq<byte>>, head: nat, count: nat): (r: seq<seq<byte>>)
    requires |slots| == SLOTS && count <= SLOTS
    ensures |r| == count
  {
    seq(count, i requires 0 <= i < count <= SLOTS == |slots| => slots[SlotOf(head, count, i)])
  }

  /** Writing the head slot and advancing appends the line; a full ring loses its oldest. */
  lemma LiveAfterWrite(slots: seq<seq<byte>>, head: nat, count: nat, line: seq<byte>)
    requires |slots| == SLOTS && head < SLOTS && count <= SLOTS
    ensures var entries := Live(slots, head, count);
            Live(slots[head := line], (head + 1) % SLOTS, if count < SLOTS then count + 1 else count)
              == (if count < SLOTS then entries else entries[1..]) + [line]
  {
    Shifted(head, count);
  }

  class Ring {
    var slots: array<seq<byte>>
    var head: nat
    var count: nat

    ghost predicate Valid()
      reads this, slots
    {
      && slots.Length == SLOTS && head < SLOTS && count <= SLOTS
      && forall i | 0 <= i < SLOTS :: |slots[i]| < LINE_MAX
    }

    ghost function Entries(): (r: seq<seq<byte>>)
      requires Valid()
      reads this, slots
      ensures |r| == count
    {
      Live(slots[..], head, count)
    }

    constructor ()
      ensures Valid() && Entries() == [] && fresh(slots)
    {
      slots := new seq<byte>[SLOTS](_ => []);
      head, count := 0, 0;
    }

    /** Entry `i`, if there is one. */
    method Get(i: nat) returns (r: Option<seq<byte>>)
      requires Valid()
      ensures r == if i < count then Some(Entries()[i]) else None
    {
      if i >= count { return None; }
      r := Some(slots[SlotOf(head, count, i)]);
    }

    /** Into the next slot, over the oldest entry when the ring is full. */
    method Write(line: seq<byte>)
      requires Valid() && |line| < LINE_MAX
      modifies this, slots
      ensures Valid() && slots == old(slots)
      ensures Entries() == (if old(count) < SLOTS then old(Entries()) else old(Entries())[1..]) + [line]
    {
      hide SlotOf, Live;
      LiveAfterWrite(slots[..], head, count, line);
      ghost var was := slots[..];
      slots[head] := line;
      assert slots[..] == was[head := line];
      head := (head + 1) % SLOTS;
      if count < SLOTS { count := count + 1; }
    }

    method Push(line: seq<byte>)
      requires Valid()
      modifies this, slots
      ensures Valid() && slots == old(slots) && Entries() == Recorded(old(Entries()), line)
    {
      hide SlotOf, Live;
      if line == [] { return; }
      if count > 0 {
        NewestIs(slots[..], head, count);
        if slots[SlotOf(head, count, count - 1)] == line { return; }
      }
      var n := if |line| >= LINE_MAX then LINE_MAX - 1 else |line|;
      assert line[..|line|] == line;
      Write(line[..n]);
    }
  }

  lemma NewestIs(slots: seq<seq<byte>>, head: nat, count: nat)
    requires |slots| == SLOTS && 0 < count <= SLOTS
    ensures Last(Live(slots, head, count)) == slots[SlotOf(head, count, count - 1)]
  {
  }
}
