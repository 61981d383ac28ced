/** What the writer has placed where. The record only grows, so whatever is laid on
    the volume stays laid while the rest of the tree is written. */
module FatPlan {
  import opened Bytes
  import opened FatNames
  import opened LongNames
  import opened FatTree

  // ---- what has been placed where --------------------------------------------------------

  /** Every chain ever allocated, and what was written to the ones written so far. */
  datatype Log = Log(chains: map<nat, nat>, content: map<nat, seq<byte>>)

  /** Nothing recorded is lost or changed, and of the older chains only those in
      `open` have been written in the meantime. */
  ghost predicate Extends(l: Log, m: Log, open: set<nat>) {
    && (forall a | a in l.chains :: a in m.chains && m.chains[a] == l.chains[a])
    && (forall a | a in l.content :: a in m.content && m.content[a] == l.content[a])
    && (forall a | a in m.content && a !in l.content :: a in open || a !in l.chains)
  }

  lemma ExtendsTrans(l: Log, m: Log, n: Log, first: set<nat>, second: set<nat>, open: set<nat>)
    requires Extends(l, m, first) && Extends(m, n, second)
    requires first <= open && forall a | a in second :: a in open || a !in l.chains
    ensures Extends(l, n, open)
  {
  }

  /** An entry's own chain: a file's is written at once, a directory's is only
      reserved until its turn comes. */
  ghost predicate Placed(node: Node, first: nat, l: Log) {
    match node
    case File(data) => if data == [] then first == 0 else FileAt(data, first, l)
    case Dir(es) => Reserved(es, first, l)
  }

  ghost predicate FileAt(data: seq<byte>, first: nat, l: Log) {
    first in l.chains && l.chains[first] == Clusters(|data|) && first in l.content && l.content[first] == data
  }

  ghost predicate Reserved(es: seq<Entry>, first: nat, l: Log) {
    first in l.chains && l.chains[first] == Clusters(DirBytes(es)) && first !in l.content
  }

  /** Where a directory's entries start, and the same for each subdirectory. */
  datatype Plan = Plan(first: nat, kids: seq<Plan>)

  function Firsts(plans: seq<Plan>): (r: seq<nat>)
    ensures |r| == |plans| && forall i | 0 <= i < |r| :: r[i] == plans[i].first
  {
    seq(|plans|, i requires 0 <= i < |plans| => plans[i].first)
  }

  /** The records the directory at `cluster` has to hold. */
  function DirRecords(up: Upper, entries: seq<Entry>, cluster: nat, parent: Option<nat>, firsts: seq<nat>)
    : (r: seq<seq<byte>>)
    requires ShortsOf(up, entries).Some? && Named(entries, ShortsOf(up, entries).value)
    requires |firsts| == |entries|
  {
    Heading(cluster, parent) + Body(entries, ShortsOf(up, entries).value, firsts)
  }

  ghost predicate SelfLaid(up: Upper, entries: seq<Entry>, cluster: nat, parent: Option<nat>,
                           firsts: seq<nat>, l: Log) {
    && |firsts| == |entries|
    && ShortsOf(up, entries).Some? && Named(entries, ShortsOf(up, entries).value)
    && cluster in l.chains && l.chains[cluster] == Clusters(DirBytes(entries))
    && cluster in l.content
    && l.content[cluster] == Flatten(DirRecords(up, entries, cluster, parent, firsts))
  }

  /** `..` of a directory directly under the root is cluster 0, by rule. */
  function ParentOf(cluster: nat, parent: Option<nat>): (r: Option<nat>) {
    Some(if parent.None? then 0 else cluster)
  }

  /** The whole subtree is on the volume: this directory's records, each file's
      bytes, and each subdirectory in turn. */
  ghost predicate DirLaid(up: Upper, entries: seq<Entry>, cluster: nat, parent: Option<nat>,
                          plans: seq<Plan>, l: Log)
    decreases entries
  {
    && |plans| == |entries|
    && SelfLaid(up, entries, cluster, parent, Firsts(plans), l)
    && (forall i | 0 <= i < |entries| :: entries[i].node.File? ==> Placed(entries[i].node, plans[i].first, l))
    && (forall i | 0 <= i < |entries| :: entries[i].node.Dir? ==>
          DirLaid(up, entries[i].node.entries, plans[i].first, ParentOf(cluster, parent), plans[i].kids, l))
  }

  lemma SelfLaidStays(up: Upper, entries: seq<Entry>, cluster: nat, parent: Option<nat>,
                      firsts: seq<nat>, l: Log, m: Log, open: set<nat>)
    requires SelfLaid(up, entries, cluster, parent, firsts, l) && Extends(l, m, open)
    ensures SelfLaid(up, entries, cluster, parent, firsts, m)
  {
  }

  lemma FilePlacedStays(node: Node, first: nat, l: Log, m: Log, open: set<nat>)
    requires node.File? && Placed(node, first, l) && Extends(l, m, open)
    ensures Placed(node, first, m)
  {
  }

  lemma AllocExtends(l: Log, first: nat, n: nat)
    requires first !in l.chains
    ensures Extends(l, l.(chains := l.chains[first := n]), {})
  {
  }

  lemma WriteExtends(l: Log, first: nat, data: seq<byte>)
    requires first !in l.content
    ensures Extends(l, l.(content := l.content[first := data]), {first})
  {
  }

  /** What is laid stays laid. */
  lemma {:induction false} DirLaidStays(up: Upper, entries: seq<Entry>, cluster: nat, parent: Option<nat>,
                                        plans: seq<Plan>, l: Log, m: Log, open: set<nat>)
    requires DirLaid(up, entries, cluster, parent, plans, l) && Extends(l, m, open)
    ensures DirLaid(up, entries, cluster, parent, plans, m)
    decreases entries
  {
    SelfLaidStays(up, entries, cluster, parent, Firsts(plans), l, m, open);
    forall i | 0 <= i < |entries| && entries[i].node.File?
      ensures Placed(entries[i].node, plans[i].first, m)
    {
      FilePlacedStays(entries[i].node, plans[i].first, l, m, open);
    }
    forall i | 0 <= i < |entries| && entries[i].node.Dir?
      ensures DirLaid(up, entries[i].node.entries, plans[i].first, ParentOf(cluster, parent), plans[i].kids, m)
    {
      DirLaidStays(up, entries[i].node.entries, plans[i].first, ParentOf(cluster, parent), plans[i].kids, l, m, open);
    }
  }

  // ---- bookkeeping of the listing loop ------------------------------------------------------

  function PrependNames(a: seq<string>, r: Option<seq<string>>): (p: Option<seq<string>>)
    ensures a == [] ==> p == r
    ensures r == Some([]) ==> p == Some(a)
  {
    match r
    case None => None
    case Some(rest) =>
      assert [] + rest == rest && a + [] == a;
      Some(a + rest)
  }

  /** Naming one more entry moves it from the names to come to the names given. */
  lemma NamingStep(up: Upper, names: seq<string>, i: nat, shorts: seq<string>, taken: set<string>)
    requires i < |names|
    ensures var short := FirstShort(up, names[i], taken);
            PrependNames(shorts, ShortNames(up, names[i..], taken)) ==
            if short.None? then None
            else PrependNames(shorts + [short.value], ShortNames(up, names[i + 1..], taken + {short.value}))
  {
    var short := FirstShort(up, names[i], taken);
    assert names[i..][0] == names[i] && names[i..][1..] == names[i + 1..];
    if short.Some? {
      var rest := ShortNames(up, names[i + 1..], taken + {short.value});
      assert rest.Some? ==> shorts + ([short.value] + rest.value) == shorts + [short.value] + rest.value;
    }
  }

  lemma NamedStep(entries: seq<Entry>, i: nat, shorts: seq<string>, short: string)
    requires i < |entries| && Named(entries[..i], shorts)
    requires NameOk(entries[i].name) && ShortShape(short)
    ensures Named(entries[..i + 1], shorts + [short])
  {
    var es, ss := entries[..i + 1], shorts + [short];
    forall k | 0 <= k < i + 1 ensures NameOk(es[k].name) && ShortShape(ss[k]) {
      if k < i { assert es[k] == entries[..i][k] && ss[k] == shorts[k]; }
    }
  }

  lemma BodySnoc(es: seq<Entry>, ss: seq<string>, fs: seq<nat>, n: nat)
    requires Named(es, ss) && |fs| == |es| == n + 1
    ensures Named(es[..n], ss[..n])
    ensures Body(es, ss, fs) == Body(es[..n], ss[..n], fs[..n]) + EntryRecords(es[n], ss[n], fs[n])
  {
  }

  lemma BodyStep(entries: seq<Entry>, i: nat, shorts: seq<string>, firsts: seq<nat>, short: string, first: nat)
    requires i < |entries| && Named(entries[..i], shorts) && |firsts| == i
    requires NameOk(entries[i].name) && ShortShape(short)
    requires Named(entries[..i + 1], shorts + [short])
    ensures Body(entries[..i + 1], shorts + [short], firsts + [first]) ==
            Body(entries[..i], shorts, firsts) + EntryRecords(entries[i], short, first)
  {
    var es, ss, fs := entries[..i + 1], shorts + [short], firsts + [first];
    BodySnoc(es, ss, fs, i);
    assert es[..i] == entries[..i] && ss[..i] == shorts && fs[..i] == firsts;
  }

  /** Entries placed so far: each has its chain, and reserved directories come in
      rising order, above everything allocated before. */
  ghost predicate AllPlaced(entries: seq<Entry>, firsts: seq<nat>, l: Log, lo: nat) {
    && |firsts| == |entries|
    && (forall i | 0 <= i < |entries| :: Placed(entries[i].node, firsts[i], l))
    && (forall i | 0 <= i < |entries| :: entries[i].node.Dir? ==> lo <= firsts[i])
    && (forall i, j | 0 <= i < j < |entries| ::
          entries[i].node.Dir? && entries[j].node.Dir? ==> firsts[i] < firsts[j])
  }

  lemma PlacedStays(node: Node, first: nat, l: Log, m: Log)
    requires Placed(node, first, l) && Extends(l, m, {})
    ensures Placed(node, first, m)
  {
  }

  lemma AllPlacedStep(entries: seq<Entry>, i: nat, firsts: seq<nat>, l: Log, m: Log, lo: nat, next: nat, first: nat)
    requires i < |entries| && AllPlaced(entries[..i], firsts, l, lo)
    requires Extends(l, m, {}) && lo <= next
    requires forall a | a in l.chains :: a < next
    requires Placed(entries[i].node, first, m)
    requires entries[i].node.Dir? ==> first == next
    ensures AllPlaced(entries[..i + 1], firsts + [first], m, lo)
  {
    var es, fs := entries[..i + 1], firsts + [first];
    forall k | 0 <= k < i + 1 ensures Placed(es[k].node, fs[k], m) {
      if k < i {
        assert entries[..i][k] == es[k];
        PlacedStays(es[k].node, fs[k], l, m);
      }
    }
    forall k | 0 <= k < i && es[k].node.Dir? ensures lo <= fs[k] < next {
      assert entries[..i][k] == es[k] && Placed(entries[..i][k].node, firsts[k], l);
    }
    forall j, k | 0 <= j < k < i + 1 && es[j].node.Dir? && es[k].node.Dir? ensures fs[j] < fs[k] {
      assert entries[..i][j] == es[j];
      if k < i { assert entries[..i][k] == es[k]; }
    }
  }

  /** The state of the listing loop after `i` entries. */
  ghost predicate Listed(up: Upper, entries: seq<Entry>, i: nat, shorts: seq<string>, taken: set<string>,
                         firsts: seq<nat>, recs: seq<seq<byte>>) {
    && i <= |entries| && |taken| <= i
    && ShortsOf(up, entries) == PrependNames(shorts, ShortNames(up, Names(entries)[i..], taken))
    && Named(entries[..i], shorts) && |firsts| == i
    && recs == Body(entries[..i], shorts, firsts)
  }

  lemma ListedAtStart(up: Upper, entries: seq<Entry>, l: Log, lo: nat)
    ensures Listed(up, entries, 0, [], {}, [], [])
    ensures AllPlaced(entries[..0], [], l, lo) && Extends(l, l, {})
  {
    assert Names(entries)[0..] == Names(entries) && entries[..0] == [];
  }

  lemma ListedStep(up: Upper, entries: seq<Entry>, i: nat, shorts: seq<string>, taken: set<string>,
                   firsts: seq<nat>, recs: seq<seq<byte>>, short: string, first: nat)
    requires i < |entries| && Listed(up, entries, i, shorts, taken, firsts, recs)
    requires NameOk(entries[i].name) && ShortShape(short)
    requires FirstShort(up, entries[i].name, taken) == Some(short)
    ensures Listed(up, entries, i + 1, shorts + [short], taken + {short}, firsts + [first],
                   recs + EntryRecords(entries[i], short, first))
  {
    assert Names(entries)[i] == entries[i].name;
    NamingStep(up, Names(entries), i, shorts, taken);
    NamedStep(entries, i, shorts, short);
    BodyStep(entries, i, shorts, firsts, short, first);
  }

  lemma ListedAtEnd(up: Upper, entries: seq<Entry>, shorts: seq<string>, taken: set<string>,
                    firsts: seq<nat>, recs: seq<seq<byte>>)
    requires Listed(up, entries, |entries|, shorts, taken, firsts, recs)
    ensures ShortsOf(up, entries) == Some(shorts) && Named(entries, shorts) && |firsts| == |entries|
    ensures recs == Body(entries, shorts, firsts) && OwnSum(entries[|entries|..]) == 0
  {
    assert Names(entries)[|entries|..] == [] && entries[..|entries|] == entries;
  }

  lemma OwnSumStep(entries: seq<Entry>, i: nat)
    requires i < |entries|
    ensures OwnSum(entries[|entries|..]) == 0 == BelowSum(entries[|entries|..])
    ensures OwnSum(entries[i..]) == OwnClusters(entries[i].node) + OwnSum(entries[i + 1..])
    ensures BelowSum(entries[i..]) == Below(entries[i].node) + BelowSum(entries[i + 1..])
  {
    assert entries[i..][1..] == entries[i + 1..];
  }

  /** Choose the short name of one entry and cut its long name if it has one. */
  method NameEntry(up: Upper, name: string, taken: set<string>)
    returns (short: Option<string>, taken': set<string>, longs: seq<seq<byte>>)
    requires NameOk(name)
    ensures short == FirstShort(up, name, taken)
    ensures short.None? ==> |taken| >= LAST_TRY
    ensures short.Some? ==> taken' == taken + {short.value} && |taken'| <= |taken| + 1
    ensures short.Some? ==> ShortShape(short.value) && longs == LongPart(name, short.value)
  {
    longs := [];
    if Fits83(name) {
      FittingNameShape(name);
      short := Some(ShortEntryName(name));
      taken' := taken + {short.value};
    } else {
      var probes;
      short, taken', probes := MakeShortName(up, name, taken);
      if short.Some? { longs := LfnEntries(name, Eleven(short.value)); }
    }
  }

  // ---- how much a directory's records take -----------------------------------------------------

  lemma {:induction false} SlotsSnoc(es: seq<Entry>, n: nat)
    requires |es| == n + 1
    ensures Slots(es) == Slots(es[..n]) + 1 + if Fits83(es[n].name) then 0 else LongCount(es[n].name)
    decreases n
  {
    if n > 0 {
      SlotsSnoc(es[1..], n - 1);
      assert es[1..][..n - 1] == es[..n][1..];
    } else {
      assert es[1..] == [] && es[..0] == [];
    }
  }

  lemma EntryRecordsSized(e: Entry, short: string, first: nat)
    requires NameOk(e.name) && ShortShape(short)
    ensures Sized(EntryRecords(e, short, first))
    ensures |EntryRecords(e, short, first)| == 1 + if Fits83(e.name) then 0 else LongCount(e.name)
  {
  }

  lemma SizedAppend(a: seq<seq<byte>>, b: seq<seq<byte>>)
    requires Sized(a) && Sized(b)
    ensures Sized(a + b)
  {
  }

  lemma {:induction false} BodySized(es: seq<Entry>, ss: seq<string>, fs: seq<nat>)
    requires Named(es, ss) && |fs| == |es|
    ensures Sized(Body(es, ss, fs)) && |Body(es, ss, fs)| == Slots(es)
    decreases |es|
  {
    if es == [] {
    } else {
      var n := |es| - 1;
      BodySnoc(es, ss, fs, n);
      BodySized(es[..n], ss[..n], fs[..n]);
      SlotsSnoc(es, n);
      EntryRecordsSized(es[n], ss[n], fs[n]);
      SizedAppend(Body(es[..n], ss[..n], fs[..n]), EntryRecords(es[n], ss[n], fs[n]));
    }
  }

  lemma {:induction false} FlattenSized(recs: seq<seq<byte>>)
    requires Sized(recs)
    ensures |Flatten(recs)| == 32 * |recs|
  {
    if recs == [] {
    } else {
      assert |recs[0]| == 32;
      FlattenSized(recs[1..]);
    }
  }

  /** Whether the records, and an end mark behind them, fit the chain the writer
      sized in advance is known from the names alone. */
  lemma DirRecordsFit(up: Upper, entries: seq<Entry>, cluster: nat, parent: Option<nat>, firsts: seq<nat>)
    requires ShortsOf(up, entries).Some? && Named(entries, ShortsOf(up, entries).value)
    requires |firsts| == |entries|
    ensures var recs := DirRecords(up, entries, cluster, parent, firsts);
            && Sized(recs) && |Flatten(recs)| == 32 * |recs|
            && (|Flatten(recs)| <= Clusters(DirBytes(entries)) * CLUSTER <==> RoomOk(entries, parent.None?))
            && (|Flatten(recs)| < Clusters(DirBytes(entries)) * CLUSTER <==> EndMarked(entries, parent.None?))
  {
    hide Flatten, Body, Heading, ShortsOf, Named, Slots, DirBytes, Clusters;
    var body := Body(entries, ShortsOf(up, entries).value, firsts);
    BodySized(entries, ShortsOf(up, entries).value, firsts);
    HeadingSized(cluster, parent);
    SizedAppend(Heading(cluster, parent), body);
    FlattenSized(Heading(cluster, parent) + body);
  }

  lemma HeadingSized(cluster: nat, parent: Option<nat>)
    ensures Sized(Heading(cluster, parent))
  {
  }

  // ---- bookkeeping of the loop over subdirectories ----------------------------------------------

  function DirFirsts(entries: seq<Entry>, firsts: seq<nat>): (r: set<nat>)
    requires |firsts| == |entries|
  {
    set i | 0 <= i < |entries| && entries[i].node.Dir? :: firsts[i]
  }

  /** Subdirectories before `i` are laid, the later ones still only reserved. */
  ghost predicate Descended(up: Upper, entries: seq<Entry>, firsts: seq<nat>, i: nat, cluster: nat,
                            parent: Option<nat>, plans: seq<Plan>, l: Log)
  {
    && |firsts| == |entries| && |plans| == i <= |entries|
    && (forall k | 0 <= k < i :: plans[k].first == firsts[k])
    && (forall k | 0 <= k < i :: entries[k].node.Dir? ==>
          DirLaid(up, entries[k].node.entries, firsts[k], ParentOf(cluster, parent), plans[k].kids, l))
    && (forall k | i <= k < |entries| :: entries[k].node.Dir? ==> Reserved(entries[k].node.entries, firsts[k], l))
    && (forall k | 0 <= k < |entries| :: entries[k].node.File? ==> Placed(entries[k].node, firsts[k], l))
  }

  lemma DescendedAtStart(up: Upper, entries: seq<Entry>, firsts: seq<nat>, cluster: nat, parent: Option<nat>, l: Log, lo: nat)
    requires AllPlaced(entries, firsts, l, lo)
    ensures Descended(up, entries, firsts, 0, cluster, parent, [], l)
    ensures |firsts| == |entries| && Extends(l, l, DirFirsts(entries, firsts)) && BelowSum([]) == 0
  {
    forall k | 0 <= k < |entries| && entries[k].node.Dir?
      ensures Reserved(entries[k].node.entries, firsts[k], l)
    {
      assert Placed(entries[k].node, firsts[k], l);
    }
  }

  lemma DescendedSkip(up: Upper, entries: seq<Entry>, firsts: seq<nat>, i: nat, cluster: nat, parent: Option<nat>,
                      plans: seq<Plan>, l: Log)
    requires Descended(up, entries, firsts, i, cluster, parent, plans, l)
    requires i < |entries| && entries[i].node.File?
    ensures Below(entries[i].node) == 0
    ensures Descended(up, entries, firsts, i + 1, cluster, parent, plans + [Plan(firsts[i], [])], l)
  {
  }

  lemma LaidStep(up: Upper, entries: seq<Entry>, firsts: seq<nat>, i: nat, up1: Option<nat>,
                 plans: seq<Plan>, kids: seq<Plan>, l: Log, m: Log)
    requires i < |entries| == |firsts| && |plans| == i && Extends(l, m, {firsts[i]})
    requires forall k | 0 <= k < i :: entries[k].node.Dir? ==>
               DirLaid(up, entries[k].node.entries, firsts[k], up1, plans[k].kids, l)
    requires entries[i].node.Dir? && DirLaid(up, entries[i].node.entries, firsts[i], up1, kids, m)
    ensures var plans' := plans + [Plan(firsts[i], kids)];
            forall k | 0 <= k < i + 1 :: entries[k].node.Dir? ==>
              DirLaid(up, entries[k].node.entries, firsts[k], up1, plans'[k].kids, m)
  {
    hide DirLaid, Extends;
    var plans' := plans + [Plan(firsts[i], kids)];
    forall k | 0 <= k < i + 1 && entries[k].node.Dir?
      ensures DirLaid(up, entries[k].node.entries, firsts[k], up1, plans'[k].kids, m)
    {
      if k < i {
        assert plans'[k] == plans[k];
        DirLaidStays(up, entries[k].node.entries, firsts[k], up1, plans[k].kids, l, m, {firsts[i]});
      }
    }
  }

  lemma RestStep(entries: seq<Entry>, firsts: seq<nat>, i: nat, l: Log, m: Log, lo: nat, l0: Log)
    requires AllPlaced(entries, firsts, l0, lo)
    requires i < |entries| && entries[i].node.Dir? && Extends(l, m, {firsts[i]})
    requires forall k | i <= k < |entries| :: entries[k].node.Dir? ==> Reserved(entries[k].node.entries, firsts[k], l)
    ensures forall k | i + 1 <= k < |entries| :: entries[k].node.Dir? ==> Reserved(entries[k].node.entries, firsts[k], m)
  {
    forall k | i + 1 <= k < |entries| && entries[k].node.Dir?
      ensures Reserved(entries[k].node.entries, firsts[k], m)
    {
      assert firsts[i] < firsts[k];
      assert Reserved(entries[k].node.entries, firsts[k], l);
    }
  }

  lemma DescendedStep(up: Upper, entries: seq<Entry>, firsts: seq<nat>, i: nat, cluster: nat, parent: Option<nat>,
                      plans: seq<Plan>, kids: seq<Plan>, l: Log, m: Log, lo: nat, l0: Log)
    requires AllPlaced(entries, firsts, l0, lo)
    requires Descended(up, entries, firsts, i, cluster, parent, plans, l)
    requires i < |entries| && entries[i].node.Dir? && Extends(l, m, {firsts[i]})
    requires DirLaid(up, entries[i].node.entries, firsts[i], ParentOf(cluster, parent), kids, m)
    ensures Descended(up, entries, firsts, i + 1, cluster, parent, plans + [Plan(firsts[i], kids)], m)
  {
    hide DirLaid, Extends, AllPlaced, Reserved, Placed, ParentOf;
    LaidStep(up, entries, firsts, i, ParentOf(cluster, parent), plans, kids, l, m);
    RestStep(entries, firsts, i, l, m, lo, l0);
    forall k | 0 <= k < |entries| && entries[k].node.File? ensures Placed(entries[k].node, firsts[k], m) {
      FilePlacedStays(entries[k].node, firsts[k], l, m, {firsts[i]});
    }
  }

  /** Some directory of the tree has more entries than there are numbered names. */
  ghost predicate Crowded(entries: seq<Entry>)
    decreases entries
  {
    |entries| > LAST_TRY || exists i | 0 <= i < |entries| :: entries[i].node.Dir? && Crowded(entries[i].node.entries)
  }

  /** What a subtree inherits from its directory, and what it adds to it. */
  lemma SubtreeFacts(up: Upper, entries: seq<Entry>, root: bool, i: nat)
    requires TreeOk(up, entries, root) && i < |entries| && entries[i].node.Dir?
    ensures var es := entries[i].node.entries;
            && TreeOk(up, es, false) && (Crowded(es) ==> Crowded(entries))
            && Below(entries[i].node) == OwnSum(es) + BelowSum(es)
  {
  }

  lemma TreeFacts(up: Upper, entries: seq<Entry>, root: bool)
    requires TreeOk(up, entries, root)
    ensures RoomOk(entries, root) && (forall i | 0 <= i < |entries| :: NameOk(entries[i].name))
    ensures |entries| > LAST_TRY ==> Crowded(entries)
  {
  }

  lemma ReservedStays(es: seq<Entry>, first: nat, l: Log, m: Log)
    requires Reserved(es, first, l) && Extends(l, m, {})
    ensures first in l.chains && Reserved(es, first, m)
  {
  }

  /** Writing a reserved directory's records lays the directory itself. */
  lemma WriteLays(up: Upper, entries: seq<Entry>, cluster: nat, parent: Option<nat>, firsts: seq<nat>, l: Log)
    requires ShortsOf(up, entries).Some? && Named(entries, ShortsOf(up, entries).value)
    requires |firsts| == |entries| && RoomOk(entries, parent.None?) && Reserved(entries, cluster, l)
    ensures DirRecords(up, entries, cluster, parent, firsts) ==
            Heading(cluster, parent) + Body(entries, ShortsOf(up, entries).value, firsts)
    ensures var blob := Flatten(DirRecords(up, entries, cluster, parent, firsts));
            && |blob| <= l.chains[cluster] * CLUSTER
            && SelfLaid(up, entries, cluster, parent, firsts, l.(content := l.content[cluster := blob]))
  {
    DirRecordsFit(up, entries, cluster, parent, firsts);
  }

  lemma ReservedNow(up: Upper, entries: seq<Entry>, firsts: seq<nat>, i: nat, cluster: nat, parent: Option<nat>,
                    plans: seq<Plan>, l: Log)
    requires Descended(up, entries, firsts, i, cluster, parent, plans, l) && i < |entries|
    requires entries[i].node.Dir?
    ensures |firsts| == |entries| && Reserved(entries[i].node.entries, firsts[i], l)
    ensures firsts[i] in DirFirsts(entries, firsts) && ParentOf(cluster, parent).Some?
  {
  }

  lemma WidenOpen(l: Log, m: Log, cluster: nat)
    requires Extends(l, m, {})
    ensures Extends(l, m, {cluster})
  {
  }

  lemma AllPlacedWrite(entries: seq<Entry>, firsts: seq<nat>, l: Log, m: Log, lo: nat, cluster: nat)
    requires AllPlaced(entries, firsts, l, lo) && Extends(l, m, {cluster}) && cluster < lo
    ensures AllPlaced(entries, firsts, m, lo)
  {
    forall i | 0 <= i < |entries| ensures Placed(entries[i].node, firsts[i], m) {
      assert Placed(entries[i].node, firsts[i], l);
    }
  }

  lemma LogsCompose(l0: Log, l1: Log, l2: Log, l3: Log, cluster: nat, lo: nat, entries: seq<Entry>, firsts: seq<nat>)
    requires AllPlaced(entries, firsts, l2, lo) && forall a | a in l0.chains :: a < lo
    requires Extends(l0, l1, {}) && Extends(l1, l2, {cluster}) && Extends(l2, l3, DirFirsts(entries, firsts))
    ensures Extends(l0, l3, {cluster})
  {
    ExtendsTrans(l0, l1, l2, {}, {cluster}, {cluster});
    ExtendsTrans(l0, l2, l3, {cluster}, DirFirsts(entries, firsts), {cluster});
  }

  lemma AssembleLaid(up: Upper, entries: seq<Entry>, cluster: nat, parent: Option<nat>, firsts: seq<nat>,
                     plans: seq<Plan>, l: Log, m: Log)
    requires SelfLaid(up, entries, cluster, parent, firsts, l) && Extends(l, m, DirFirsts(entries, firsts))
    requires Descended(up, entries, firsts, |entries|, cluster, parent, plans, m)
    ensures DirLaid(up, entries, cluster, parent, plans, m)
  {
    assert Firsts(plans) == firsts;
    SelfLaidStays(up, entries, cluster, parent, firsts, l, m, DirFirsts(entries, firsts));
  }
}
