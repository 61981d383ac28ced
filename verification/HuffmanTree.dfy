/** Recovering code tables from skip-encoded decode trees. A node word holds two
    skips; a skip of 250 or more is only a hop towards the destination; a word with
    a zero second byte is a leaf. The walk turns the tree into (code, length, x, y)
    entries and a Kraft sum decides whether any code was lost. */
module HuffmanTree {
  import opened Bytes

  // ---- the tree -------------------------------------------------------------------------

  predicate IsLeaf(w: nat) { w / 256 % 256 == 0 }

  function Skip(w: nat, right: bool): (r: nat) { if right then w % 256 else w / 256 }

  /** Follow one branch through its chain of hops; running off the words is an error. */
  function Hop(words: seq<nat>, base: nat, idx: nat, right: bool): (r: Option<nat>)
    decreases |words| - base - idx
  {
    if base + idx >= |words| then None
    else
      var skip := Skip(words[base + idx], right);
      if skip < 250 then Some(idx + skip) else Hop(words, base, idx + skip, right)
  }

  /** The high byte of a word leads left and its low byte right: 250 and more goes on from
      where it leads, less than that ends there. */
  predicate Escapes(words: seq<nat>, base: nat, right: bool, i: nat, next: nat) {
    && base + i < |words|
    && (if right then words[base + i] % 256 else words[base + i] / 256) >= 250
    && next == i + if right then words[base + i] % 256 else words[base + i] / 256
  }

  predicate Lands(words: seq<nat>, base: nat, right: bool, i: nat, end: nat) {
    && base + i < |words|
    && (if right then words[base + i] % 256 else words[base + i] / 256) < 250
    && end == i + if right then words[base + i] % 256 else words[base + i] / 256
  }

  /** The indices a branch passes, from `start` to the one it lands from. */
  ghost predicate Passes(words: seq<nat>, base: nat, start: nat, right: bool, path: seq<nat>, end: nat) {
    && path != [] && path[0] == start
    && (forall k | 0 <= k < |path| - 1 :: Escapes(words, base, right, path[k], path[k + 1]))
    && Lands(words, base, right, path[|path| - 1], end)
  }

  lemma PassesOn(words: seq<nat>, base: nat, idx: nat, right: bool, rest: seq<nat>, next: nat, end: nat)
    requires Escapes(words, base, right, idx, next) && Passes(words, base, next, right, rest, end)
    ensures Passes(words, base, idx, right, [idx] + rest, end)
  {
    hide Escapes, Lands;
    var path := [idx] + rest;
    forall k | 0 <= k < |path| - 1 ensures Escapes(words, base, right, path[k], path[k + 1]) {
      if k > 0 { assert path[k] == rest[k - 1] && path[k + 1] == rest[k]; }
    }
  }

  lemma PassesRest(words: seq<nat>, base: nat, idx: nat, right: bool, path: seq<nat>, end: nat)
    requires Passes(words, base, idx, right, path, end) && |path| > 1
    ensures Escapes(words, base, right, idx, path[1]) && Passes(words, base, path[1], right, path[1..], end)
  {
    hide Escapes, Lands;
    var rest := path[1..];
    assert Escapes(words, base, right, path[0], path[0 + 1]);
    forall k | 0 <= k < |rest| - 1 ensures Escapes(words, base, right, rest[k], rest[k + 1]) {
      assert Escapes(words, base, right, path[k + 1], path[k + 1 + 1]);
    }
  }

  lemma {:induction false} HopPasses(words: seq<nat>, base: nat, idx: nat, right: bool) returns (path: seq<nat>)
    requires Hop(words, base, idx, right).Some?
    ensures Passes(words, base, idx, right, path, Hop(words, base, idx, right).value)
    decreases |words| - base - idx
  {
    var skip := Skip(words[base + idx], right);
    if skip < 250 {
      path := [idx];
    } else {
      hide Passes;
      var rest := HopPasses(words, base, idx + skip, right);
      path := [idx] + rest;
      PassesOn(words, base, idx, right, rest, idx + skip, Hop(words, base, idx, right).value);
    }
  }

  lemma {:induction false} PassesHop(words: seq<nat>, base: nat, idx: nat, right: bool, path: seq<nat>, end: nat)
    requires Passes(words, base, idx, right, path, end)
    ensures Hop(words, base, idx, right) == Some(end)
    decreases path
  {
    if |path| == 1 {
    } else {
      PassesRest(words, base, idx, right, path, end);
      PassesHop(words, base, path[1], right, path[1..], end);
    }
  }

  method FollowBranch(words: seq<nat>, base: nat, start: nat, right: bool) returns (r: Option<nat>)
    ensures r == Hop(words, base, start, right)
    ensures r.Some? ==> exists path: seq<nat> :: Passes(words, base, start, right, path, r.value)
    ensures forall path: seq<nat>, end: nat | Passes(words, base, start, right, path, end) :: r == Some(end)
  {
    hide Passes;
    BranchIs(words, base, start, right);
    var idx := start;
    while base + idx < |words|
      invariant Hop(words, base, start, right) == Hop(words, base, idx, right)
      decreases |words| - base - idx
    {
      var skip := Skip(words[base + idx], right);
      idx := idx + skip;
      if skip < 250 { return Some(idx); }
    }
    return None;
  }

  /** The branch ends exactly where its indices do. */
  lemma BranchIs(words: seq<nat>, base: nat, start: nat, right: bool)
    ensures var r := Hop(words, base, start, right);
            r.Some? ==> exists path: seq<nat> :: Passes(words, base, start, right, path, r.value)
    ensures forall path: seq<nat>, end: nat | Passes(words, base, start, right, path, end) ::
              Hop(words, base, start, right) == Some(end)
  {
    hide Passes, Hop;
    if Hop(words, base, start, right).Some? { var path := HopPasses(words, base, start, right); }
    forall path: seq<nat>, end: nat | Passes(words, base, start, right, path, end)
      ensures Hop(words, base, start, right) == Some(end)
    {
      PassesHop(words, base, start, right, path, end);
    }
  }

  datatype Symbol = Symbol(x: nat, y: nat, bits: nat)

  function After(n: nat, r: Option<Symbol>): (p: Option<Symbol>) {
    match r case None => None case Some(s) => Some(s.(bits := n + s.bits))
  }

  /** Decoding with the tree itself: one bit a node until a leaf. */
  function TreeDecode(words: seq<nat>, base: nat, idx: nat, s: seq<bool>): (r: Option<Symbol>)
    decreases |s|
  {
    if base + idx >= |words| then None
    else
      var w := words[base + idx];
      if IsLeaf(w) then Some(Symbol(w / 16 % 16, w % 16, 0))
      else if s == [] then None
      else
        match Hop(words, base, idx, s[0])
        case None => None
        case Some(i) => After(1, TreeDecode(words, base, i, s[1..]))
  }

  /** A symbol once found does not depend on the bits that follow it. */
  lemma {:induction false} TreeDecodeExtends(words: seq<nat>, base: nat, idx: nat, s: seq<bool>, more: seq<bool>)
    requires TreeDecode(words, base, idx, s).Some?
    ensures TreeDecode(words, base, idx, s + more) == TreeDecode(words, base, idx, s)
    ensures TreeDecode(words, base, idx, s).value.bits <= |s|
    decreases |s|
  {
    if base + idx >= |words| || IsLeaf(words[base + idx]) {
    } else {
      TreeDecodeExtends(words, base, Hop(words, base, idx, s[0]).value, s[1..], more);
      assert (s + more)[0] == s[0] && (s + more)[1..] == s[1..] + more;
    }
  }

  // ---- bit strings and codes -----------------------------------------------------------------

  function Pow2(k: nat): (r: nat)
    ensures r >= 1
  {
    if k == 0 then 1 else 2 * Pow2(k - 1)
  }

  /** Most significant bit first. */
  function Val(s: seq<bool>): (r: nat) {
    if s == [] then 0 else 2 * Val(s[..|s| - 1]) + if s[|s| - 1] then 1 else 0
  }

  datatype Code = Code(code: nat, bits: nat, x: nat, y: nat)

  predicate Matches(code: nat, bits: nat, s: seq<bool>) {
    bits <= |s| && Val(s[..bits]) == code
  }

  /** A prefix one bit longer matches exactly one of the two extended codes. */
  lemma MatchesExtend(code: nat, bits: nat, s: seq<bool>)
    requires bits < |s|
    ensures Matches(code, bits, s) ==>
              Matches(2 * code + (if s[bits] then 1 else 0), bits + 1, s) &&
              !Matches(2 * code + (if s[bits] then 0 else 1), bits + 1, s)
    ensures Matches(2 * code, bits + 1, s) ==> Matches(code, bits, s) && !s[bits]
    ensures Matches(2 * code + 1, bits + 1, s) ==> Matches(code, bits, s) && s[bits]
  {
    assert s[..bits + 1][..bits] == s[..bits];
  }

  // ---- the walk, as it accounts for itself ------------------------------------------------------

  const MAX_BITS := 24

  /** A pending or discarded branch: where it stands, the code so far, its length. */
  datatype Item = Item(idx: nat, code: nat, bits: nat)

  /** Every stream that begins with the item's code decodes, in the tree, as
      whatever the subtree at `idx` makes of the rest. */
  ghost predicate Reached(words: seq<nat>, base: nat, it: Item) {
    && it.code < Pow2(it.bits)
    && forall s: seq<bool> | Matches(it.code, it.bits, s) ::
      TreeDecode(words, base, 0, s) == After(it.bits, TreeDecode(words, base, it.idx, s[it.bits..]))
  }

  ghost predicate Recovered(words: seq<nat>, base: nat, e: Code) {
    && e.code < Pow2(e.bits)
    && forall s: seq<bool> | Matches(e.code, e.bits, s) ::
      TreeDecode(words, base, 0, s) == Some(Symbol(e.x, e.y, e.bits))
  }

  lemma RootReached(words: seq<nat>, base: nat)
    ensures Reached(words, base, Item(0, 0, 0))
  {
    forall s: seq<bool> | Matches(0, 0, s)
      ensures TreeDecode(words, base, 0, s) == After(0, TreeDecode(words, base, 0, s[0..]))
    {
      assert s[0..] == s;
    }
  }

  /** Both children of a reached node are reached. */
  lemma ChildReached(words: seq<nat>, base: nat, it: Item, right: bool, next: nat)
    requires Reached(words, base, it) && base + it.idx < |words| && !IsLeaf(words[base + it.idx])
    requires Hop(words, base, it.idx, right) == Some(next)
    ensures Reached(words, base, Item(next, 2 * it.code + (if right then 1 else 0), it.bits + 1))
  {
    var kid := Item(next, 2 * it.code + (if right then 1 else 0), it.bits + 1);
    forall s: seq<bool> | Matches(kid.code, kid.bits, s)
      ensures TreeDecode(words, base, 0, s) == After(kid.bits, TreeDecode(words, base, kid.idx, s[kid.bits..]))
    {
      MatchesExtend(it.code, it.bits, s);
      var rest := s[it.bits..];
      assert rest[0] == right && rest[1..] == s[kid.bits..];
    }
  }

  /** A leaf that is reached is a code that is recovered. */
  lemma LeafRecovered(words: seq<nat>, base: nat, it: Item)
    requires Reached(words, base, it) && base + it.idx < |words| && IsLeaf(words[base + it.idx])
    ensures var w := words[base + it.idx]; Recovered(words, base, Code(it.code, it.bits, w / 16 % 16, w % 16))
  {
  }

  // ---- conservation -----------------------------------------------------------------------------

  /** A branch `bits` deep stands for 2^-bits of the code space, here in units of 2^-25. */
  function Weight(bits: nat): (r: nat)
    requires bits <= MAX_BITS + 1
    ensures r >= 1
  {
    Pow2(MAX_BITS + 1 - bits)
  }

  lemma WeightHalves(bits: nat)
    requires bits <= MAX_BITS
    ensures Weight(bits) == 2 * Weight(bits + 1)
  {
  }

  predicate Shallow(items: seq<Item>) { forall i | 0 <= i < |items| :: items[i].bits <= MAX_BITS + 1 }

  predicate ShortCodes(out: seq<Code>) { forall i | 0 <= i < |out| :: out[i].bits <= MAX_BITS }

  function ItemWeight(items: seq<Item>): (r: nat)
    requires Shallow(items)
  {
    if items == [] then 0 else ItemWeight(items[..|items| - 1]) + Weight(items[|items| - 1].bits)
  }

  function CodeWeight(out: seq<Code>): (r: nat)
    requires ShortCodes(out)
  {
    if out == [] then 0 else CodeWeight(out[..|out| - 1]) + Weight(out[|out| - 1].bits)
  }

  /** How many of the items' or entries' codes a stream begins with. */
  function ItemMatches(items: seq<Item>, s: seq<bool>): (r: nat) {
    if items == [] then 0
    else ItemMatches(items[..|items| - 1], s) +
         if Matches(items[|items| - 1].code, items[|items| - 1].bits, s) then 1 else 0
  }

  function CodeMatches(out: seq<Code>, s: seq<bool>): (r: nat) {
    if out == [] then 0
    else CodeMatches(out[..|out| - 1], s) +
         if Matches(out[|out| - 1].code, out[|out| - 1].bits, s) then 1 else 0
  }

  lemma ItemSnoc(items: seq<Item>, it: Item, s: seq<bool>)
    requires Shallow(items) && it.bits <= MAX_BITS + 1
    ensures Shallow(items + [it]) && ItemWeight(items + [it]) == ItemWeight(items) + Weight(it.bits)
    ensures ItemMatches(items + [it], s) == ItemMatches(items, s) + if Matches(it.code, it.bits, s) then 1 else 0
  {
    assert (items + [it])[..|items|] == items;
  }

  lemma CodeSnoc(out: seq<Code>, e: Code, s: seq<bool>)
    requires ShortCodes(out) && e.bits <= MAX_BITS
    ensures ShortCodes(out + [e]) && CodeWeight(out + [e]) == CodeWeight(out) + Weight(e.bits)
    ensures CodeMatches(out + [e], s) == CodeMatches(out, s) + if Matches(e.code, e.bits, s) then 1 else 0
  {
    assert (out + [e])[..|out|] == out;
  }

  /** The books of the walk: what has been emitted, what is pending, what was
      dropped. The weights always add up to the whole code space, and every long
      enough stream begins with exactly one of the codes on the books. */
  datatype Books = Books(out: seq<Code>, stack: seq<Item>, dropped: seq<Item>)

  ghost predicate Sound(words: seq<nat>, base: nat, length: nat, b: Books) {
    && ShortCodes(b.out) && Shallow(b.stack) && Shallow(b.dropped)
    && (forall i | 0 <= i < |b.out| :: Recovered(words, base, b.out[i]))
    && (forall i | 0 <= i < |b.stack| :: Reached(words, base, b.stack[i]))
    && (forall i | 0 <= i < |b.dropped| :: b.dropped[i].idx >= length || b.dropped[i].bits > MAX_BITS)
  }

  ghost predicate Conserved(b: Books)
    requires ShortCodes(b.out) && Shallow(b.stack) && Shallow(b.dropped)
  {
    CodeWeight(b.out) + ItemWeight(b.stack) + ItemWeight(b.dropped) == Pow2(MAX_BITS + 1)
  }

  function MatchesOnBooks(b: Books, s: seq<bool>): (r: nat) {
    CodeMatches(b.out, s) + ItemMatches(b.stack, s) + ItemMatches(b.dropped, s)
  }

  ghost predicate Covering(b: Books) {
    forall s: seq<bool> | |s| > MAX_BITS :: MatchesOnBooks(b, s) == 1
  }

  ghost predicate Kept(words: seq<nat>, base: nat, length: nat, b: Books) {
    Sound(words, base, length, b) && Conserved(b) && Covering(b)
  }

  lemma BooksAtStart(words: seq<nat>, base: nat, length: nat)
    ensures Kept(words, base, length, Books([], [Item(0, 0, 0)], []))
  {
    RootReached(words, base);
    hide Pow2, TreeDecode, Reached;
    StartConserves(Item(0, 0, 0));
    StartCovers(Item(0, 0, 0));
    hide Conserved, Covering;
  }

  lemma StartConserves(it: Item)
    requires it.bits == 0
    ensures Shallow([it]) && Conserved(Books([], [it], []))
  {
    hide Pow2, Matches, ItemMatches;
    assert [] + [it] == [it];
    ItemSnoc([], it, []);
  }

  lemma StartCovers(it: Item)
    requires it.bits == 0 && it.code == 0
    ensures Covering(Books([], [it], []))
  {
    hide Pow2, Weight, ItemWeight;
    var b := Books([], [it], []);
    assert [] + [it] == b.stack;
    forall s: seq<bool> | |s| > MAX_BITS ensures MatchesOnBooks(b, s) == 1 {
      ItemSnoc([], it, s);
      assert s[..0] == [] && Matches(0, 0, s);
    }
  }

  function Popped(b: Books): (r: seq<Item>)
    requires b.stack != []
  {
    b.stack[..|b.stack| - 1]
  }

  function Top(b: Books): (r: Item)
    requires b.stack != []
  {
    b.stack[|b.stack| - 1]
  }

  /** A branch out of range or too deep is dropped: its weight changes columns. */
  lemma DropKeeps(words: seq<nat>, base: nat, length: nat, b: Books)
    requires Kept(words, base, length, b) && b.stack != []
    requires Top(b).idx >= length || Top(b).bits > MAX_BITS
    ensures Kept(words, base, length, Books(b.out, Popped(b), b.dropped + [Top(b)]))
  {
    hide Reached, Recovered;
    DropConserves(b);
    DropCovers(b);
    hide Conserved, Covering;
  }

  lemma DropConserves(b: Books)
    requires ShortCodes(b.out) && Shallow(b.stack) && Shallow(b.dropped) && Conserved(b) && b.stack != []
    ensures Shallow(Popped(b)) && Shallow(b.dropped + [Top(b)])
    ensures Conserved(Books(b.out, Popped(b), b.dropped + [Top(b)]))
  {
    hide Pow2, Weight, Matches, ItemWeight, CodeWeight, ItemMatches;
    assert b.stack == Popped(b) + [Top(b)];
    ItemSnoc(Popped(b), Top(b), []);
    ItemSnoc(b.dropped, Top(b), []);
  }

  lemma DropCovers(b: Books)
    requires Shallow(b.stack) && Shallow(b.dropped) && b.stack != [] && Covering(b)
    ensures Covering(Books(b.out, Popped(b), b.dropped + [Top(b)]))
  {
    hide Pow2, Weight, Matches, ItemMatches, CodeMatches, ItemWeight;
    var b' := Books(b.out, Popped(b), b.dropped + [Top(b)]);
    assert b.stack == Popped(b) + [Top(b)];
    forall s: seq<bool> | |s| > MAX_BITS ensures MatchesOnBooks(b', s) == 1 {
      ItemSnoc(Popped(b), Top(b), s);
      ItemSnoc(b.dropped, Top(b), s);
      assert MatchesOnBooks(b, s) == 1;
    }
  }

  /** A leaf moves from pending to emitted. */
  lemma LeafKeeps(words: seq<nat>, base: nat, length: nat, b: Books)
    requires Kept(words, base, length, b) && b.stack != [] && Top(b).bits <= MAX_BITS
    requires base + Top(b).idx < |words| && IsLeaf(words[base + Top(b).idx])
    ensures var w := words[base + Top(b).idx];
            Kept(words, base, length, Books(b.out + [Code(Top(b).code, Top(b).bits, w / 16 % 16, w % 16)], Popped(b), b.dropped))
  {
    var w := words[base + Top(b).idx];
    var e := Code(Top(b).code, Top(b).bits, w / 16 % 16, w % 16);
    LeafRecovered(words, base, Top(b));
    hide Pow2, Recovered, Reached;
    LeafConserves(b, e);
    LeafCovers(b, e);
    hide Conserved, Covering;
  }

  lemma LeafConserves(b: Books, e: Code)
    requires ShortCodes(b.out) && Shallow(b.stack) && Shallow(b.dropped) && Conserved(b) && b.stack != []
    requires e.bits == Top(b).bits <= MAX_BITS
    ensures ShortCodes(b.out + [e]) && Shallow(Popped(b)) && Conserved(Books(b.out + [e], Popped(b), b.dropped))
  {
    hide Pow2, Weight, Matches, ItemWeight, CodeWeight, ItemMatches, CodeMatches;
    assert b.stack == Popped(b) + [Top(b)];
    ItemSnoc(Popped(b), Top(b), []);
    CodeSnoc(b.out, e, []);
  }

  lemma LeafCovers(b: Books, e: Code)
    requires ShortCodes(b.out) && Shallow(b.stack) && b.stack != [] && Covering(b)
    requires e.code == Top(b).code && e.bits == Top(b).bits <= MAX_BITS
    ensures Covering(Books(b.out + [e], Popped(b), b.dropped))
  {
    hide Pow2, Weight, Matches, ItemMatches, CodeMatches, ItemWeight, CodeWeight;
    var b' := Books(b.out + [e], Popped(b), b.dropped);
    assert b.stack == Popped(b) + [Top(b)];
    forall s: seq<bool> | |s| > MAX_BITS ensures MatchesOnBooks(b', s) == 1 {
      ItemSnoc(Popped(b), Top(b), s);
      CodeSnoc(b.out, e, s);
      assert MatchesOnBooks(b, s) == 1;
    }
  }

  /** A node is replaced by its two children, each with half its weight. */
  lemma SplitKeeps(words: seq<nat>, base: nat, length: nat, b: Books, l: nat, r: nat)
    requires Kept(words, base, length, b) && b.stack != [] && Top(b).bits <= MAX_BITS
    requires base + Top(b).idx < |words| && !IsLeaf(words[base + Top(b).idx])
    requires Hop(words, base, Top(b).idx, false) == Some(l) && Hop(words, base, Top(b).idx, true) == Some(r)
    ensures Kept(words, base, length, Books(b.out, Popped(b) + [LeftKid(b, l)] + [RightKid(b, r)], b.dropped))
  {
    hide Pow2, TreeDecode;
    var p, it, a, c := Popped(b), Top(b), LeftKid(b, l), RightKid(b, r);
    assert b.stack == p + [it];
    SplitCovers(b, l, r);
    SplitConserves(b, l, r);
    hide Covering;
    ChildReached(words, base, it, false, l);
    ChildReached(words, base, it, true, r);
    hide Reached, Recovered, Hop;
    forall i | 0 <= i < |p + [a] + [c]| ensures Reached(words, base, (p + [a] + [c])[i]) {
      if i < |p| { assert (p + [a] + [c])[i] == b.stack[i]; }
    }
  }

  lemma SplitCovers(b: Books, l: nat, r: nat)
    requires Shallow(b.stack) && b.stack != [] && Top(b).bits <= MAX_BITS && Covering(b)
    ensures Covering(Books(b.out, Popped(b) + [LeftKid(b, l)] + [RightKid(b, r)], b.dropped))
  {
    hide Pow2;
    var p, it, a, c := Popped(b), Top(b), LeftKid(b, l), RightKid(b, r);
    var b' := Books(b.out, p + [a] + [c], b.dropped);
    assert b.stack == p + [it];
    forall s: seq<bool> | |s| > MAX_BITS ensures MatchesOnBooks(b', s) == 1 {
      ItemSnoc(p, it, s);
      ItemSnoc(p, a, s);
      ItemSnoc(p + [a], c, s);
      MatchesExtend(it.code, it.bits, s);
      assert MatchesOnBooks(b, s) == 1;
    }
  }

  lemma SplitConserves(b: Books, l: nat, r: nat)
    requires ShortCodes(b.out) && Shallow(b.stack) && Shallow(b.dropped) && Conserved(b)
    requires b.stack != [] && Top(b).bits <= MAX_BITS
    ensures Shallow(Popped(b) + [LeftKid(b, l)] + [RightKid(b, r)])
    ensures Conserved(Books(b.out, Popped(b) + [LeftKid(b, l)] + [RightKid(b, r)], b.dropped))
  {
    hide Pow2, Weight;
    var p, it, a, c := Popped(b), Top(b), LeftKid(b, l), RightKid(b, r);
    assert b.stack == p + [it];
    ItemSnoc(p, it, []);
    ItemSnoc(p, a, []);
    ItemSnoc(p + [a], c, []);
    WeightHalves(it.bits);
  }

  function LeftKid(b: Books, l: nat): (r: Item)
    requires b.stack != []
  {
    Item(l, 2 * Top(b).code, Top(b).bits + 1)
  }

  function RightKid(b: Books, r: nat): (k: Item)
    requires b.stack != []
  {
    Item(r, 2 * Top(b).code + 1, Top(b).bits + 1)
  }

  // ---- termination ---------------------------------------------------------------------------------

  /** No subtree below a branch can have more nodes than a full one of its height. */
  function Remaining(stack: seq<Item>): (r: nat)
    requires Shallow(stack)
  {
    if stack == [] then 0 else Remaining(stack[..|stack| - 1]) + 2 * Weight(stack[|stack| - 1].bits) - 1
  }

  lemma RemainingSnoc(stack: seq<Item>, it: Item)
    requires Shallow(stack) && it.bits <= MAX_BITS + 1
    ensures Shallow(stack + [it]) && Remaining(stack + [it]) == Remaining(stack) + 2 * Weight(it.bits) - 1
  {
    assert (stack + [it])[..|stack|] == stack;
  }

  // ---- the walk ---------------------------------------------------------------------------------------

  /** Every branch from `idx` on ends in a leaf, inside the table and within the limit. */
  predicate Complete(words: seq<nat>, base: nat, length: nat, idx: nat, bits: nat)
    decreases MAX_BITS + 1 - bits
  {
    && idx < length && bits <= MAX_BITS && base + idx < |words|
    && (IsLeaf(words[base + idx]) ||
        var l, r := Hop(words, base, idx, false), Hop(words, base, idx, true);
        l.Some? && r.Some? && Complete(words, base, length, l.value, bits + 1)
        && Complete(words, base, length, r.value, bits + 1))
  }

  ghost predicate AllComplete(words: seq<nat>, base: nat, length: nat, stack: seq<Item>) {
    forall i | 0 <= i < |stack| :: Complete(words, base, length, stack[i].idx, stack[i].bits)
  }

  lemma AllCompleteSnoc(words: seq<nat>, base: nat, length: nat, stack: seq<Item>, it: Item)
    ensures AllComplete(words, base, length, stack + [it]) <==>
            AllComplete(words, base, length, stack) && Complete(words, base, length, it.idx, it.bits)
  {
    var all := stack + [it];
    assert all[|stack|] == it && forall i | 0 <= i < |stack| :: all[i] == stack[i];
  }

  /** Recover every code of one tree. `None` is the index error of the original. It comes
      through with nothing dropped exactly when the tree is complete. */
  method Walk(words: seq<nat>, base: nat, length: nat) returns (r: Option<seq<Code>>, dropped: seq<Item>)
    ensures r.Some? ==> Kept(words, base, length, Books(r.value, [], dropped))
    ensures r.Some? && dropped == [] <==> Complete(words, base, length, 0, 0)
  {
    hide Kept, Measure, Hop, Pow2, AllComplete;
    var out: seq<Code>, stack: seq<Item> := [], [Item(0, 0, 0)];
    dropped := [];
    BooksAtStart(words, base, length);
    NoneComplete(words, base, length);
    AllCompleteSnoc(words, base, length, [], stack[0]);
    assert [] + [stack[0]] == stack;
    while stack != []
      invariant Kept(words, base, length, Books(out, stack, dropped))
      invariant Complete(words, base, length, 0, 0) <==> dropped == [] && AllComplete(words, base, length, stack)
      decreases Measure(stack)
    {
      var b := Books(out, stack, dropped);
      var it := stack[|stack| - 1];
      PopShrinks(words, base, length, b);
      assert stack == stack[..|stack| - 1] + [it];
      AllCompleteSnoc(words, base, length, stack[..|stack| - 1], it);
      stack := stack[..|stack| - 1];
      if it.idx >= length || it.bits > MAX_BITS {
        DropKeeps(words, base, length, b);
        dropped := dropped + [it];
      } else {
        if base + it.idx >= |words| { return None, dropped; }
        var w := words[base + it.idx];
        if IsLeaf(w) {
          LeafKeeps(words, base, length, b);
          out := out + [Code(it.code, it.bits, w / 16 % 16, w % 16)];
        } else {
          var left := FollowBranch(words, base, it.idx, false);
          if left.None? { return None, dropped; }
          var right := FollowBranch(words, base, it.idx, true);
          if right.None? { return None, dropped; }
          SplitKeeps(words, base, length, b, left.value, right.value);
          AllCompleteSnoc(words, base, length, stack, Item(left.value, 2 * it.code, it.bits + 1));
          AllCompleteSnoc(words, base, length, stack + [Item(left.value, 2 * it.code, it.bits + 1)],
                          Item(right.value, 2 * it.code + 1, it.bits + 1));
          stack := stack + [Item(left.value, 2 * it.code, it.bits + 1)] + [Item(right.value, 2 * it.code + 1, it.bits + 1)];
        }
      }
    }
    NoneComplete(words, base, length);
    return Some(out), dropped;
  }

  lemma NoneComplete(words: seq<nat>, base: nat, length: nat)
    ensures AllComplete(words, base, length, [])
  {
  }

  function Measure(stack: seq<Item>): (r: nat) { if Shallow(stack) then Remaining(stack) else 0 }

  lemma PopShrinks(words: seq<nat>, base: nat, length: nat, b: Books)
    requires Kept(words, base, length, b) && b.stack != []
    ensures Measure(Popped(b)) < Measure(b.stack)
    ensures Top(b).bits <= MAX_BITS ==> forall l, r :: Measure(Popped(b) + [LeftKid(b, l)] + [RightKid(b, r)]) < Measure(b.stack)
  {
    hide Pow2, Weight, Covering, Conserved;
    var p, it := Popped(b), Top(b);
    assert b.stack == p + [it];
    RemainingSnoc(p, it);
    if it.bits <= MAX_BITS {
      forall l, r ensures Measure(p + [LeftKid(b, l)] + [RightKid(b, r)]) < Measure(b.stack) {
        WeightHalves(it.bits);
        RemainingSnoc(p, LeftKid(b, l));
        RemainingSnoc(p + [LeftKid(b, l)], RightKid(b, r));
      }
    }
  }
}
