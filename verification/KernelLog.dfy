/** The kernel's log ring and its backwards reader. */
module KernelLog {
  import opened Bytes

  const SIZE := 65536

  class Log {
    const ring: array<byte>
    var head: nat
    var total: nat
    ghost var written: seq<byte>

    function Live(): (r: nat)
      reads this
      ensures r <= SIZE
    {
      if total < SIZE then total else SIZE
    }

    /** The ring holds the newest bytes of everything ever written. */
    ghost predicate Valid()
      reads this, ring
    {
      && ring.Length == SIZE && total == |written| && head == total % SIZE
      && forall n | 1 <= n <= Live() :: ring[Back(head, n)] == written[|written| - n]
    }

    /** What is still held, oldest first. */
    ghost function Contents(): (r: seq<byte>)
      requires Valid()
      reads this, ring
      ensures |r| == Live()
    {
      written[|written| - Live()..]
    }

    constructor ()
      ensures Valid() && written == []
    {
      ring := new byte[SIZE](_ => 0);
      head, total := 0, 0;
      written := [];
    }

    method PutC(c: byte)
      requires Valid()
      modifies this, ring
      ensures Valid() && written == old(written) + [c]
    {
      ghost var h := head;
      ring[head] := c;
      head := (head + 1) % SIZE;
      total := total + 1;
      written := written + [c];
      Advanced(total - 1, h);
      forall n | 1 <= n <= Live()
        ensures ring[Back(head, n)] == written[|written| - n]
      {
        BackSteps(h, n);
      }
    }

    /** One byte counted back from the newest; 0 outside what is held. */
    method PeekBack(n: nat) returns (c: byte)
      requires Valid()
      ensures c == if 1 <= n <= |Contents()| then Contents()[|Contents()| - n] else 0
    {
      hide Back;
      if n == 0 || n > Live() { return 0; }
      c := ring[Back(head, n)];
    }
  }

  function Back(head: nat, n: nat): (r: nat)
    requires head < SIZE && n <= SIZE
    ensures r < SIZE
  {
    (head + SIZE - n) % SIZE
  }

  lemma Advanced(total: nat, head: nat)
    requires head == total % SIZE
    ensures (head + 1) % SIZE == (total + 1) % SIZE
  {
  }

  /** After the head moved on, the newest byte is where it was and the others one further. */
  lemma BackSteps(head: nat, n: nat)
    requires head < SIZE && 1 <= n <= SIZE
    ensures n == 1 ==> Back((head + 1) % SIZE, n) == head
    ensures n > 1 ==> Back((head + 1) % SIZE, n) == Back(head, n - 1) && Back(head, n - 1) != head
  {
  }
}
