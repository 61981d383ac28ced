/** The on-screen log viewer: each press shows the page before the one on screen, and when
    there is no full page left the desktop comes back. */
module LogPager {
  import opened Bytes
  import opened KernelLog

  const NL: byte := 10

  // ---- lines counted from the end ---------------------------------------------------------

  function Newlines(log: seq<byte>): (r: nat)
    ensures r <= |log|
  {
    if log == [] then 0
    else Newlines(log[..|log| - 1]) + (if log[|log| - 1] == NL then 1 else 0)
  }

  lemma {:induction false} NewlinesJoin(a: seq<byte>, b: seq<byte>)
    ensures Newlines(a + b) == Newlines(a) + Newlines(b)
    decreases |b|
  {
    if b == [] {
      assert a + b == a;
    } else {
      NewlinesJoin(a, b[..|b| - 1]);
      assert (a + b)[..|a + b| - 1] == a + b[..|b| - 1];
    }
  }

  /** How many bytes back the walk goes for `want` line breaks. */
  function WalkBack(log: seq<byte>, want: nat): (r: nat)
    ensures r <= |log|
    decreases |log|
  {
    if want == 0 || log == [] then 0
    else 1 + WalkBack(log[..|log| - 1], if log[|log| - 1] == NL then want - 1 else want)
  }

  /** The walk's end, as a position in the log. */
  function Start(log: seq<byte>, want: nat): (r: nat)
    ensures r <= |log|
  {
    |log| - WalkBack(log, want)
  }

  /** The walk ends on the break it was looking for, or at the beginning when there are
      too few. */
  lemma {:induction false} WalkEnds(log: seq<byte>, want: nat)
    ensures Newlines(log) >= want ==> Newlines(log[Start(log, want)..]) == want
    ensures Newlines(log) >= want > 0 ==> Start(log, want) < |log| && log[Start(log, want)] == NL
    ensures Newlines(log) < want ==> Start(log, want) == 0
    decreases |log|
  {
    var at := Start(log, want);
    if want == 0 {
      assert log[at..] == [];
    } else if log != [] {
      var init, last := log[..|log| - 1], log[|log| - 1];
      var less := if last == NL then want - 1 else want;
      WalkEnds(init, less);
      assert Start(init, less) == at;
      assert log[at..] == init[at..] + [last];
      NewlinesJoin(init[at..], [last]);
      assert Newlines([last]) == if last == NL then 1 else 0 by { assert [last][..0] == []; }
    }
  }

  lemma {:induction false} WalkFurther(log: seq<byte>, a: nat, b: nat)
    ensures Start(log, a + b) <= Start(log, a)
    decreases |log|
  {
    if a == 0 || log == [] {
    } else {
      var init := log[..|log| - 1];
      WalkFurther(init, if log[|log| - 1] == NL then a - 1 else a, b);
    }
  }

  // ---- pages ------------------------------------------------------------------------------------

  /** Page `p`, counted back from the newest, of `per` lines. */
  function Page(log: seq<byte>, per: nat, p: nat): (r: seq<byte>)
  {
    WalkFurther(log, per * p, per);
    assert per * p + per == per * (p + 1);
    log[Start(log, per * (p + 1))..Start(log, per * p)]
  }

  predicate Full(log: seq<byte>, per: nat, p: nat) { Newlines(log) >= per * (p + 1) }

  /** The pages from `n` back, oldest first. */
  function Pages(log: seq<byte>, per: nat, n: nat): (r: seq<byte>) {
    if n == 0 then [] else Page(log, per, n - 1) + Pages(log, per, n - 1)
  }

  /** Where page `p` ends, and page `p - 1` begins. */
  function Edge(log: seq<byte>, per: nat, p: nat): (r: nat)
    ensures r <= |log|
  {
    Start(log, per * p)
  }

  lemma PageJoins(log: seq<byte>, per: nat, p: nat)
    ensures Page(log, per, p) + log[Edge(log, per, p)..] == log[Edge(log, per, p + 1)..]
  {
    hide Start;
    WalkFurther(log, per * p, per);
    assert per * p + per == per * (p + 1);
    Joined(log, Start(log, per * (p + 1)), Start(log, per * p));
  }

  lemma Joined(log: seq<byte>, i: nat, j: nat)
    requires i <= j <= |log|
    ensures log[i..j] + log[j..] == log[i..]
  {
  }

  lemma {:induction false} PagesReach(log: seq<byte>, per: nat, n: nat)
    requires Edge(log, per, 0) == |log|
    ensures Pages(log, per, n) == log[Edge(log, per, n)..]
  {
    hide Page, Edge;
    if n == 0 {
    } else {
      PagesReach(log, per, n - 1);
      PageJoins(log, per, n - 1);
    }
  }

  /** Pages laid end to end are a suffix of the log: no gap and no repeat. */
  lemma PagesTile(log: seq<byte>, per: nat, n: nat)
    ensures Pages(log, per, n) == log[Start(log, per * n)..]
  {
    hide Page, Pages;
    assert Start(log, 0) == |log| && per * 0 == 0;
    PagesReach(log, per, n);
  }

  // ---- showing one ----------------------------------------------------------------------------------

  /** Everything before line break number `per + 1`. */
  function Forward(s: seq<byte>, per: nat): (r: seq<byte>) {
    if s == [] then []
    else if s[0] != NL then [s[0]] + Forward(s[1..], per)
    else if per == 0 then []
    else [s[0]] + Forward(s[1..], per - 1)
  }

  lemma NewlinesStep(s: seq<byte>)
    requires s != []
    ensures Newlines(s) == Newlines(s[1..]) + if s[0] == NL then 1 else 0
  {
    assert s == [s[0]] + s[1..];
    NewlinesJoin([s[0]], s[1..]);
    assert Newlines([s[0]]) == if s[0] == NL then 1 else 0 by { assert [s[0]][..0] == []; }
  }

  lemma {:induction false} ForwardStops(s: seq<byte>, rest: seq<byte>, per: nat)
    requires Newlines(s) == per || (rest == [] && Newlines(s) <= per)
    requires rest == [] || rest[0] == NL
    ensures Forward(s + rest, per) == s
    decreases |s|
  {
    if s == [] {
      assert s + rest == rest;
    } else {
      hide Newlines;
      NewlinesStep(s);
      ForwardStops(s[1..], rest, if s[0] == NL then per - 1 else per);
      assert (s + rest)[1..] == s[1..] + rest && (s + rest)[0] == s[0];
    }
  }

  /** Reading forward from where the walk stopped, for `per` more breaks than before, gives
      what lies between the two. */
  lemma BetweenWalks(log: seq<byte>, per: nat, skip: nat)
    requires per > 0 && (skip == 0 || Newlines(log) >= skip + per)
    ensures Start(log, skip + per) <= Start(log, skip)
    ensures Forward(log[Start(log, skip + per)..], per) == log[Start(log, skip + per)..Start(log, skip)]
  {
    hide WalkBack, Newlines, Forward;
    var from, to := Start(log, skip + per), Start(log, skip);
    WalkFurther(log, skip, per);
    WalkEnds(log, skip + per);
    WalkEnds(log, skip);
    var s, rest := log[from..to], log[to..];
    assert log[from..] == s + rest;
    NewlinesJoin(s, rest);
    if skip == 0 {
      NoWalk(log);
      assert rest == [] && s == log[from..];
      if Newlines(log) < per { assert log[0..] == log; }
      NothingCounted();
    }
    ForwardStops(s, rest, per);
  }

  lemma NoWalk(log: seq<byte>)
    ensures Start(log, 0) == |log|
  {
  }

  lemma NothingCounted()
    ensures Newlines([]) == 0
  {
  }

  lemma PageShown(log: seq<byte>, per: nat, p: nat)
    requires per > 0 && (p == 0 || Full(log, per, p))
    ensures Forward(log[Start(log, per * (p + 1))..], per) == Page(log, per, p)
  {
    hide Newlines, Start, Forward;
    assert per * p + per == per * (p + 1);
    BetweenWalks(log, per, per * p);
  }

  method WalkLog(log: Log, want: nat) returns (back: nat, lines: nat)
    requires log.Valid()
    ensures back == WalkBack(log.Contents(), want)
    ensures lines < want <==> Newlines(log.Contents()) < want
  {
    hide Log.Valid, Log.Contents;
    ghost var all := log.Contents();
    back, lines := 0, 0;
    assert all[..|all|] == all;
    while back < log.Live() && lines < want
      invariant back <= |all| && lines <= want
      invariant WalkBack(all, want) == back + WalkBack(all[..|all| - back], want - lines)
      invariant Newlines(all) == lines + Newlines(all[..|all| - back])
    {
      ghost var rest := all[..|all| - back];
      back := back + 1;
      var c := log.PeekBack(back);
      assert c == rest[|rest| - 1] && rest[..|rest| - 1] == all[..|all| - back];
      if c == NL { lines := lines + 1; }
    }
  }

  /** So far `out` is shown; `back` bytes and `per - shown` breaks are left. */
  ghost predicate Showing(all: seq<byte>, whole: seq<byte>, per: nat, out: seq<byte>, back: nat, shown: nat) {
    back <= |all| && shown <= per && out + Forward(all[|all| - back..], per - shown) == whole
  }

  lemma ShowingStep(all: seq<byte>, whole: seq<byte>, per: nat, out: seq<byte>, back: nat, shown: nat)
    requires Showing(all, whole, per, out, back, shown) && 0 < back
    ensures back <= |all|
    ensures var c := all[|all| - back];
            if c == NL && shown == per then out == whole
            else Showing(all, whole, per, out + [c], back - 1, if c == NL then shown + 1 else shown)
  {
    var s := all[|all| - back..];
    assert s[1..] == all[|all| - (back - 1)..];
    if s[0] == NL && shown == per {
      assert out + [] == out;
    } else {
      var rest := Forward(s[1..], if s[0] == NL then per - shown - 1 else per - shown);
      assert out + ([s[0]] + rest) == (out + [s[0]]) + rest;
    }
  }

  lemma ShowingEnds(all: seq<byte>, whole: seq<byte>, per: nat, out: seq<byte>, shown: nat)
    requires Showing(all, whole, per, out, 0, shown)
    ensures out == whole
  {
    assert all[|all|..] == [] && out + [] == out;
  }

  lemma ShowingStarts(all: seq<byte>, per: nat, back: nat)
    requires back <= |all|
    ensures Showing(all, Forward(all[|all| - back..], per), per, [], back, 0)
  {
  }

  /** Forward from `from` bytes back, one page of lines. */
  method ShowFrom(log: Log, from: nat, per: nat) returns (out: seq<byte>)
    requires log.Valid() && from <= log.Live()
    ensures out == Forward(log.Contents()[|log.Contents()| - from..], per)
  {
    hide Forward, Showing, Log.Valid, Log.Contents, Back;
    ghost var all := log.Contents();
    ghost var whole := Forward(all[|all| - from..], per);
    var back, shown := from, 0;
    ShowingStarts(all, per, from);
    out := [];
    while back > 0 && shown <= per
      invariant Showing(all, whole, per, out, back, shown) && shown <= per
      decreases back
    {
      ShowingStep(all, whole, per, out, back, shown);
      var c := log.PeekBack(back);
      back := back - 1;
      if c == NL {
        shown := shown + 1;
        if shown > per { return; }
      }
      out := out + [c];
    }
    ShowingEnds(all, whole, per, out, shown);
  }

  // ---- presses ------------------------------------------------------------------------------------------

  datatype View = Shown(text: seq<byte>) | Desktop | Unchanged

  function PerPage(rows: nat): (r: nat)
    ensures r >= 1
  {
    if rows > 3 then rows - 3 else 1
  }

  /** A full page of a log, under the two lines of its heading and with one row to spare, fills
      the screen; on a screen too small for that a page is one line. */
  lemma FillsScreen(log: seq<byte>, rows: nat, p: nat)
    requires Full(log, PerPage(rows), p)
    ensures rows >= 4 ==> 2 + Newlines(Page(log, PerPage(rows), p)) + 1 == rows
    ensures rows < 4 ==> Newlines(Page(log, PerPage(rows), p)) == 1
  {
    hide Newlines, Start, PerPage;
    var per := PerPage(rows);
    PageHolds(log, per, p);
    RowsLeft(rows);
  }

  lemma RowsLeft(rows: nat)
    ensures rows >= 4 ==> 2 + PerPage(rows) + 1 == rows
    ensures rows < 4 ==> PerPage(rows) == 1
  {
  }

  lemma PageHolds(log: seq<byte>, per: nat, p: nat)
    requires Full(log, per, p)
    ensures Newlines(Page(log, per, p)) == per
  {
    hide Newlines, Start;
    assert per * p + per == per * (p + 1);
    WalkEnds(log, per * (p + 1));
    WalkEnds(log, per * p);
    PageJoins(log, per, p);
    NewlinesJoin(Page(log, per, p), log[Start(log, per * p)..]);
  }

  class Pager {
    var page: nat
    var holding: bool

    constructor ()
      ensures page == 0 && !holding
    {
      page, holding := 0, false;
    }

    /** One press. `grant` is whether the console can be taken over. */
    method Press(log: Log, rows: nat, grant: bool) returns (v: View)
      requires log.Valid() && (log as object) != this
      modifies this
      ensures page == if old(holding) then old(page) + 1 else 0
      ensures v.Desktop? <==> page > 0 && !Full(log.Contents(), PerPage(rows), page)
      ensures v.Desktop? ==> !holding
      ensures !v.Desktop? ==> v.Shown? == grant && holding == (old(holding) || grant)
      ensures v.Shown? ==> v.text == Page(log.Contents(), PerPage(rows), page)
    {
      hide Newlines, WalkBack, Forward, Page, Log.Valid, Log.Contents;
      if !holding { page := 0; } else { page := page + 1; }
      var per := PerPage(rows);
      var want := per * (page + 1);
      var back, lines := WalkLog(log, want);
      if page > 0 && lines < want {
        holding := false;
        v := Desktop;
      } else if grant {
        holding := true;
        PageShown(log.Contents(), per, page);
        var text := ShowFrom(log, back, per);
        v := Shown(text);
      } else {
        v := Unchanged;
      }
    }

    /** Press until the desktop is back, over a log that does not change: what was shown, put
        together oldest first, is the end of the log, complete exactly when the log has less
        than one page of breaks, or begins with a break and its breaks fill whole pages. */
    method PressToEnd(log: Log, rows: nat) returns (all: seq<byte>, presses: nat)
      requires log.Valid() && (log as object) != this && !holding
      modifies this
      ensures !holding
      ensures var text, per := log.Contents(), PerPage(rows);
              && presses == PageCount(text, per) + 1
              && all == text[ShownFrom(text, per)..]
              && (all == text <==> WholeShown(text, per))
    {
      hide Page, Start, Newlines, WholeShown, Log.Valid, Log.Contents;
      var per := PerPage(rows);
      ghost var text := log.Contents();
      var v := Press(log, rows, true);
      all, presses := v.text, 1;
      AllPages(text, per, 0);
      while true
        invariant holding && page == presses - 1 && presses >= 1
        invariant all == Pages(text, per, presses)
        invariant presses == 1 || Full(text, per, presses - 1)
        decreases PageCount(text, per) - presses
      {
        Remaining(text, per, presses);
        v := Press(log, rows, true);
        presses := presses + 1;
        if v.Desktop? { break; }
        AllPages(text, per, presses - 1);
        all := v.text + all;
      }
      PagesTile(text, per, presses - 1);
      Complete(text, per);
    }
  }

  predicate WholeShown(log: seq<byte>, per: nat)
    requires per > 0
  {
    Newlines(log) < per || (Newlines(log) % per == 0 && log[0] == NL)
  }

  /** How many pages are shown before the desktop returns. */
  function PageCount(log: seq<byte>, per: nat): (r: nat)
    requires per > 0
  {
    if Newlines(log) < per then 1 else Newlines(log) / per
  }

  /** The position of the oldest byte shown. */
  function ShownFrom(log: seq<byte>, per: nat): (r: nat)
    requires per > 0
    ensures r <= |log|
  {
    Start(log, per * PageCount(log, per))
  }

  lemma AllPages(log: seq<byte>, per: nat, n: nat)
    ensures Pages(log, per, n + 1) == Page(log, per, n) + Pages(log, per, n)
    ensures Pages(log, per, 0) == [] && Page(log, per, 0) + [] == Page(log, per, 0)
  {
  }

  /** Page `n` is there exactly while `n` is below the count. */
  lemma Remaining(log: seq<byte>, per: nat, n: nat)
    requires per > 0 && n >= 1 && (n == 1 || Full(log, per, n - 1))
    ensures n <= PageCount(log, per)
    ensures Full(log, per, n) <==> n < PageCount(log, per)
  {
    var lines := Newlines(log);
    if lines >= per {
      Quotient(lines, per, n + 1);
      Quotient(lines, per, n);
    } else {
      assert per * (n + 1) >= per;
    }
  }

  lemma Quotient(lines: nat, per: nat, k: nat)
    requires per > 0
    ensures lines >= per * k <==> lines / per >= k
  {
    var q := lines / per;
    assert per * q <= lines < per * (q + 1);
    if k <= q {
      assert per * k <= per * q;
    } else {
      assert per * k >= per * (q + 1);
    }
  }

  /** The walk reaches the very beginning exactly when it used up every break and the log
      begins with one. */
  lemma ReachesStart(log: seq<byte>, want: nat)
    requires Newlines(log) >= want > 0
    ensures Start(log, want) == 0 <==> Newlines(log) == want && log[0] == NL
  {
    hide WalkBack, Newlines;
    var at := Start(log, want);
    WalkEnds(log, want);
    assert log == log[..at] + log[at..];
    NewlinesJoin(log[..at], log[at..]);
    if at > 0 {
      FirstBreak(log[..at]);
    } else {
      assert log[0..] == log;
    }
  }

  lemma Complete(log: seq<byte>, per: nat)
    requires per > 0
    ensures log[Start(log, per * PageCount(log, per))..] == log <==> WholeShown(log, per)
  {
    hide Start, Newlines;
    var lines, k := Newlines(log), PageCount(log, per);
    WholeSuffix(log, Start(log, per * k));
    if lines < per {
      WalkEnds(log, per);
      assert per * k == per;
    } else {
      Quotient(lines, per, k);
      Positive(per, k);
      ReachesStart(log, per * k);
      Exact(lines, per);
    }
  }

  lemma WholeSuffix(log: seq<byte>, at: nat)
    requires at <= |log|
    ensures log[at..] == log <==> at == 0
  {
    if at == 0 { assert log[0..] == log; }
  }

  lemma Positive(per: nat, k: nat)
    requires per > 0 && k > 0
    ensures per * k > 0
  {
  }

  lemma Exact(lines: nat, per: nat)
    requires per > 0
    ensures lines % per == 0 <==> lines == per * (lines / per)
  {
  }

  lemma {:induction false} FirstBreak(s: seq<byte>)
    requires s != []
    ensures s[0] == NL ==> Newlines(s) > 0
  {
    if |s| > 1 { FirstBreak(s[..|s| - 1]); } else { assert s[..0] == []; }
  }
}
