/** Short names on a FAT volume: which names are their own 8.3 name, how one is invented
    for the others, and when the short names of a directory are distinct. */
module FatNames {
  import opened Bytes

  // ---- the 8.3 alphabet ---------------------------------------------------------

  predicate ShortOk(c: char) {
    || 'A' <= c <= 'Z' || '0' <= c <= '9'
    || c == '!' || '#' <= c <= ')' || c == '-' || c == '@'
    || '^' <= c <= '`' || c == '{' || c == '}' || c == '~'
  }

  predicate AllShortOk(s: string) {
    forall i | 0 <= i < |s| :: ShortOk(s[i])
  }

  /** Python's `str.upper` maps one character to a string; all this project needs
      of it is that the 8.3 alphabet and the dot are already upper case. */
  type Upper = char -> string

  ghost predicate UpperOk(up: Upper) {
    forall c: char | ShortOk(c) || c == '.' :: up(c) == [c]
  }

  function Uppercase(up: Upper, s: string): (r: string)
  {
    if s == "" then "" else up(s[0]) + Uppercase(up, s[1..])
  }

  /** Upper-casing a name that already fits changes nothing. */
  lemma {:induction false} UppercaseFixed(up: Upper, s: string)
    requires UpperOk(up)
    requires forall i | 0 <= i < |s| :: ShortOk(s[i]) || s[i] == '.'
    ensures Uppercase(up, s) == s
  {
    if s == "" {
    } else {
      UppercaseFixed(up, s[1..]);
      assert s == [s[0]] + s[1..];
    }
  }

  function LJust(s: string, n: nat): (r: string)
    ensures |r| == Max(|s|, n)
    ensures r[..|s|] == s
    ensures forall i | |s| <= i < |r| :: r[i] == ' '
  {
    if |s| >= n then s else s + seq(n - |s|, _ => ' ')
  }

  function FirstDot(s: string): (r: nat)
    ensures r <= |s|
    ensures r < |s| ==> s[r] == '.'
    ensures '.' !in s[..r]
  {
    if s == "" then 0
    else if s[0] == '.' then 0
    else
      var r := 1 + FirstDot(s[1..]);
      assert s[..r] == [s[0]] + s[1..][..r - 1];
      r
  }

  function Stem(s: string): (r: string)
    ensures '.' !in r
  {
    s[..FirstDot(s)]
  }

  function Ext(s: string): (r: string)
  {
    var d := FirstDot(s);
    if d < |s| then s[d + 1..] else ""
  }

  predicate Fits83(name: string) {
    name == "." || name == ".." ||
    ('.' !in Ext(name) && Stem(name) != "" && |Stem(name)| <= 8 && |Ext(name)| <= 3 &&
     AllShortOk(Stem(name)) && AllShortOk(Ext(name)))
  }

  function ShortEntryName(name: string): (r: string)
  {
    LJust(Stem(name), 8) + LJust(Ext(name), 3)
  }

  /** The letters, digits and marks a short name may have. */
  const SHORT_CHARS: string := "ABCDEFGHIJKLMNOPQRSTUVWXYZ0123456789!#$%&'()-@^_`{}~"

  lemma ShortCharsAre(c: char)
    ensures ShortOk(c) <==> c in SHORT_CHARS
  {
    var letters, digits, marks := "ABCDEFGHIJKLMNOPQRSTUVWXYZ", "0123456789", "!#$%&'()-@^_`{}~";
    assert SHORT_CHARS == letters + digits + marks;
    assert 'A' <= c <= 'Z' <==> c in letters;
    assert '0' <= c <= '9' <==> c in digits;
  }

  /** `name` is a base of one to eight such characters and, behind a dot, up to three more. */
  predicate Spelt(name: string, base: string, ext: string) {
    && 1 <= |base| <= 8 && |ext| <= 3 && AllShortOk(base) && AllShortOk(ext)
    && (name == base + "." + ext || (name == base && ext == ""))
  }

  lemma SpeltParts(name: string, base: string, ext: string)
    requires Spelt(name, base, ext)
    ensures Stem(name) == base && Ext(name) == ext
  {
    NoDot(base);
    assert name[..|base|] == base;
    assert name != base ==> name[|base|] == '.' && name[|base| + 1..] == ext;
    FirstDotAt(name, |base|);
  }

  /** A name is its own short name exactly when it is spelt so, and then the record holds base
      and extension, each padded with blanks. */
  lemma FitsIffSpelt(name: string)
    requires name != "." && name != ".."
    ensures Fits83(name) <==> exists base: string, ext: string :: Spelt(name, base, ext)
    ensures forall base: string, ext: string | Spelt(name, base, ext) ::
              && |ShortEntryName(name)| == 11 && ShortEntryName(name)[..|base|] == base
              && ShortEntryName(name)[8..8 + |ext|] == ext
              && forall i | |base| <= i < 8 || 8 + |ext| <= i < 11 :: ShortEntryName(name)[i] == ' '
  {
    forall base: string, ext: string | Spelt(name, base, ext)
      ensures Stem(name) == base && Ext(name) == ext && '.' !in ext
    {
      SpeltParts(name, base, ext);
      NoDot(ext);
    }
    if Fits83(name) { SpeltBack(name); }
  }

  lemma SpeltBack(name: string)
    requires Fits83(name) && name != "." && name != ".."
    ensures Spelt(name, Stem(name), Ext(name))
  {
    var d := FirstDot(name);
    if d < |name| {
      assert name == name[..d] + [name[d]] + name[d + 1..];
    } else {
      assert name[..d] == name;
    }
  }

  lemma NoDot(s: string)
    requires AllShortOk(s)
    ensures '.' !in s
  {
  }

  /** An 11-character short name whose first byte cannot be taken for the end
      marker, a deleted record or a dot entry. */
  predicate ShortShape(s: string) {
    |s| == 11 && ShortOk(s[0]) && forall i | 0 <= i < 11 :: ShortOk(s[i]) || s[i] == ' '
  }

  lemma FittingNameShape(name: string)
    requires Fits83(name) && name != "." && name != ".."
    ensures ShortShape(ShortEntryName(name))
  {
    var s := ShortEntryName(name);
    forall i | 0 <= i < 11
      ensures ShortOk(s[i]) || s[i] == ' '
    {
      if i < 8 {
        assert s[i] == LJust(Stem(name), 8)[i];
        assert i < |Stem(name)| ==> LJust(Stem(name), 8)[..|Stem(name)|][i] == Stem(name)[i];
      } else {
        assert s[i] == LJust(Ext(name), 3)[i - 8];
        assert i - 8 < |Ext(name)| ==> LJust(Ext(name), 3)[..|Ext(name)|][i - 8] == Ext(name)[i - 8];
      }
    }
    assert s[0] == LJust(Stem(name), 8)[..|Stem(name)|][0];
  }

  // ---- decimal numerals -----------------------------------------------------------

  function Digit(d: nat): (c: char)
    requires d < 10
    ensures '0' <= c <= '9' && c as int - '0' as int == d
  {
    '0' + d as char
  }

  function Decimal(n: nat): (r: string)
    ensures |r| >= 1
    ensures forall i | 0 <= i < |r| :: '0' <= r[i] <= '9'
  {
    if n < 10 then [Digit(n)] else Decimal(n / 10) + [Digit(n % 10)]
  }

  function ParseDecimal(s: string): (r: int)
  {
    if s == "" then 0
    else 10 * ParseDecimal(s[..|s| - 1]) + (s[|s| - 1] as int - '0' as int)
  }

  lemma {:induction false} DecimalRoundTrip(n: nat)
    ensures ParseDecimal(Decimal(n)) == n
  {
    if n >= 10 {
      DecimalRoundTrip(n / 10);
      assert Decimal(n)[..|Decimal(n)| - 1] == Decimal(n / 10);
    } else {
      assert ParseDecimal([Digit(n)][..0]) == 0;
    }
  }

  lemma {:induction false} DecimalLength(n: nat, limit: nat, k: nat)
    requires n < limit && k >= 1 && limit == Pow10(k)
    ensures |Decimal(n)| <= k
    decreases k
  {
    if n < 10 {
    } else {
      DecimalLength(n / 10, Pow10(k - 1), k - 1);
    }
  }

  function Pow10(k: nat): nat {
    if k == 0 then 1 else 10 * Pow10(k - 1)
  }

  // ---- inventing a short name -------------------------------------------------------

  function Clean(s: string): (r: string)
    ensures AllShortOk(r)
    ensures |r| <= |s|
  {
    if s == "" then ""
    else if ShortOk(s[0]) then [s[0]] + Clean(s[1..])
    else Clean(s[1..])
  }

  function LastDot(s: string): (r: int)
    ensures -1 <= r < |s|
    ensures r >= 0 ==> s[r] == '.'
    ensures '.' !in s[r + 1..]
  {
    if s == "" then -1
    else if s[|s| - 1] == '.' then |s| - 1
    else
      var r := LastDot(s[..|s| - 1]);
      NoLaterDot(s, r);
      r
  }

  lemma NoLaterDot(s: string, r: int)
    requires s != "" && s[|s| - 1] != '.' && -1 <= r < |s| - 1 && '.' !in s[..|s| - 1][r + 1..]
    ensures '.' !in s[r + 1..]
  {
    assert s[r + 1..] == s[..|s| - 1][r + 1..] + [s[|s| - 1]];
  }

  /** The name before its last dot, a leading dot excepted; and what follows it. */
  function BasePart(name: string): (r: string)
    ensures r <= name
  {
    if LastDot(name) >= 1 then name[..LastDot(name)] else name
  }

  function ExtPart(name: string): (r: string)
  {
    if LastDot(name) >= 1 then name[LastDot(name) + 1..] else ""
  }

  /** What a name without a single legal character starts from. */
  function NoBasis(): (r: string)
    ensures AllShortOk(r) && r != ""
  {
    "FILE"
  }

  /** The cleaned basis and extension a generated short name starts from. */
  function Basis(up: Upper, name: string): (r: string)
    ensures AllShortOk(r) && r != ""
  {
    var b := Clean(Uppercase(up, BasePart(name)));
    if b == "" then NoBasis() else b
  }

  function BasisExt(up: Upper, name: string): (r: string)
    ensures AllShortOk(r) && |r| <= 3
  {
    var e := Clean(Uppercase(up, ExtPart(name)));
    if |e| > 3 then e[..3] else e
  }

  const LAST_TRY: nat := 999999

  function Tail(n: nat): (r: string)
    requires 1 <= n <= LAST_TRY
    ensures 2 <= |r| <= 7
    ensures r[0] == '~' && r[1..] == Decimal(n)
  {
    DecimalLength(n, 1000000, 6);
    "~" + Decimal(n)
  }

  function Head(b: string, n: nat): (r: string)
    requires 1 <= n <= LAST_TRY
    ensures r <= b && |r| + |Tail(n)| <= 8
    ensures b != "" ==> r != ""
  {
    var room := 8 - |Tail(n)|;
    if |b| > room then b[..room] else b
  }

  function Candidate(b: string, e: string, n: nat): (r: string)
    requires 1 <= n <= LAST_TRY && |e| <= 3
    ensures |r| == 11
  {
    LJust(Head(b, n) + Tail(n), 8) + LJust(e, 3)
  }

  lemma CandidateHead(b: string, n: nat)
    requires 1 <= n <= LAST_TRY && AllShortOk(b)
    ensures AllShortOk(Head(b, n) + Tail(n))
  {
    var h := Head(b, n) + Tail(n);
    forall i | 0 <= i < |h| ensures ShortOk(h[i]) {
      if i < |Head(b, n)| {
        assert h[i] == b[i];
      } else if i > |Head(b, n)| {
        assert h[i] == Tail(n)[1..][i - |Head(b, n)| - 1];
      }
    }
  }

  lemma CandidateShape(b: string, e: string, n: nat)
    requires 1 <= n <= LAST_TRY && |e| <= 3 && b != "" && AllShortOk(b) && AllShortOk(e)
    ensures ShortShape(Candidate(b, e, n))
  {
    var s, h := Candidate(b, e, n), Head(b, n) + Tail(n);
    CandidateHead(b, n);
    forall i | 0 <= i < 11
      ensures ShortOk(s[i]) || s[i] == ' '
    {
      if i < 8 {
        assert i < |h| ==> LJust(h, 8)[..|h|][i] == h[i];
      } else {
        assert s[i] == LJust(e, 3)[i - 8];
        assert i - 8 < |e| ==> LJust(e, 3)[..|e|][i - 8] == e[i - 8];
      }
    }
    assert s[0] == LJust(h, 8)[..|h|][0] == h[0];
  }

  /** The numeral can be read back off the 8-character field: it is what follows
      the last tilde, however many tildes and digits the basis itself contains. */
  lemma CandidateDetermines(b: string, e: string, m: nat, n: nat)
    requires 1 <= m <= LAST_TRY && 1 <= n <= LAST_TRY && |e| <= 3
    requires AllShortOk(b)
    requires Candidate(b, e, m) == Candidate(b, e, n)
    ensures m == n
  {
    var x, y := Head(b, m) + Tail(m), Head(b, n) + Tail(n);
    EndsWithDigit(b, m);
    EndsWithDigit(b, n);
    assert LJust(x, 8) == Candidate(b, e, m)[..8] && LJust(y, 8) == Candidate(b, e, n)[..8];
    PaddedEqual(x, y, 8);
    if |Head(b, m)| < |Head(b, n)| { LastTilde(Head(b, m), Decimal(m), Head(b, n), Decimal(n)); }
    if |Head(b, n)| < |Head(b, m)| { LastTilde(Head(b, n), Decimal(n), Head(b, m), Decimal(m)); }
    assert Decimal(m) == x[|Head(b, m)| + 1..] && Decimal(n) == y[|Head(b, n)| + 1..];
    DecimalRoundTrip(m);
    DecimalRoundTrip(n);
  }

  lemma EndsWithDigit(b: string, n: nat)
    requires 1 <= n <= LAST_TRY
    ensures var x := Head(b, n) + Tail(n); x[|x| - 1] != ' ' && x == Head(b, n) + "~" + Decimal(n)
  {
    var h, t, d := Head(b, n), Tail(n), Decimal(n);
    assert t == "~" + d;
    assert (h + t)[|h + t| - 1] == t[|t| - 1] == d[|d| - 1];
    assert h + ("~" + d) == h + "~" + d;
  }

  /** Padding with spaces keeps strings of different lengths apart, unless the
      longer one ends in a space itself. */
  lemma PaddingTells(x: string, y: string, n: nat)
    requires |x| < |y| <= n && y[|y| - 1] != ' '
    ensures LJust(x, n) != LJust(y, n)
  {
    assert LJust(y, n)[..|y|][|y| - 1] == y[|y| - 1];
    assert LJust(x, n)[|y| - 1] == ' ';
  }

  predicate NoTrailingSpace(x: string) {
    x == "" || x[|x| - 1] != ' '
  }

  lemma PaddedEqual(x: string, y: string, n: nat)
    requires NoTrailingSpace(x) && NoTrailingSpace(y) && |x| <= n && |y| <= n
    requires LJust(x, n) == LJust(y, n)
    ensures x == y
  {
    assert |x| == |y| by {
      if |x| < |y| { PaddingTells(x, y, n); }
      if |y| < |x| { PaddingTells(y, x, n); }
    }
    assert x == LJust(x, n)[..|x|] && y == LJust(y, n)[..|y|];
  }

  /** Digits contain no tilde, so the last tilde of `h ~ d` stands right after `h`. */
  lemma LastTilde(h1: string, d1: string, h2: string, d2: string)
    requires |h1| < |h2| && '~' !in d1
    ensures h1 + "~" + d1 != h2 + "~" + d2
  {
    var w1, w2 := h1 + "~" + d1, h2 + "~" + d2;
    if |w1| == |w2| {
      assert w2[|h2|] == '~';
      assert w1[|h2|] == d1[|h2| - |h1| - 1];
    }
  }

  /** The first N from `n` on whose candidate is free, if there is one below a million. */
  function FirstFree(b: string, e: string, taken: set<string>, n: nat): (r: Option<nat>)
    requires 1 <= n <= LAST_TRY + 1 && |e| <= 3
    ensures r.Some? ==> n <= r.value <= LAST_TRY && Candidate(b, e, r.value) !in taken
    ensures r.Some? ==> forall k | n <= k < r.value :: Candidate(b, e, k) in taken
    ensures r.None? ==> forall k | n <= k <= LAST_TRY :: Candidate(b, e, k) in taken
    decreases LAST_TRY + 1 - n
  {
    if n > LAST_TRY then None
    else if Candidate(b, e, n) !in taken then Some(n)
    else FirstFree(b, e, taken, n + 1)
  }

  function GeneratedName(up: Upper, name: string, taken: set<string>): (r: Option<string>)
    ensures r.Some? ==> ShortShape(r.value) && r.value !in taken
  {
    var b, e := Basis(up, name), BasisExt(up, name);
    match FirstFree(b, e, taken, 1)
    case None => None
    case Some(n) =>
      CandidateShape(b, e, n);
      Some(Candidate(b, e, n))
  }

  /** A set that holds `k` distinct candidates has at least `k` members. */
  lemma {:induction false} CandidatesCount(b: string, e: string, taken: set<string>, k: nat)
    requires k <= LAST_TRY && |e| <= 3 && AllShortOk(b)
    requires forall n | 1 <= n <= k :: Candidate(b, e, n) in taken
    ensures k <= |taken|
  {
    if k == 0 {
    } else {
      var last := Candidate(b, e, k);
      forall n | 1 <= n <= k - 1
        ensures Candidate(b, e, n) in taken - {last}
      {
        if Candidate(b, e, n) == last { CandidateDetermines(b, e, n, k); }
      }
      CandidatesCount(b, e, taken - {last}, k - 1);
    }
  }

  /** The search itself: at most one probe more than there are names in the
      directory so far, and failure only when a million names are taken. */
  method MakeShortName(up: Upper, name: string, taken: set<string>)
    returns (short: Option<string>, taken': set<string>, probes: nat)
    ensures short == GeneratedName(up, name, taken)
    ensures probes <= |taken| + 1
    ensures short.Some? ==> taken' == taken + {short.value}
    ensures short.None? ==> taken' == taken && |taken| >= LAST_TRY
  {
    var b, e := Basis(up, name), BasisExt(up, name);
    var n := 1;
    while n <= LAST_TRY
      invariant 1 <= n <= LAST_TRY + 1
      invariant FirstFree(b, e, taken, 1) == FirstFree(b, e, taken, n)
      invariant forall k | 1 <= k < n :: Candidate(b, e, k) in taken
    {
      var cand := Candidate(b, e, n);
      if cand !in taken {
        CandidatesCount(b, e, taken, n - 1);
        return Some(cand), taken + {cand}, n;
      }
      n := n + 1;
    }
    CandidatesCount(b, e, taken, LAST_TRY);
    return None, taken, LAST_TRY;
  }

  // ---- the short names of a whole directory ---------------------------------------------

  function FirstShort(up: Upper, name: string, taken: set<string>): (r: Option<string>)
    ensures r.Some? && !Fits83(name) ==> r.value !in taken
  {
    if Fits83(name) then Some(ShortEntryName(name)) else GeneratedName(up, name, taken)
  }

  /** Short names in listing order. An 8.3 name is used as it is, without looking
      at `taken`; any other gets the first free candidate. */
  function ShortNames(up: Upper, names: seq<string>, taken: set<string>): (r: Option<seq<string>>)
    ensures r.Some? ==> |r.value| == |names|
  {
    if names == [] then Some([])
    else
      var short := FirstShort(up, names[0], taken);
      if short.None? then None
      else
        var rest := ShortNames(up, names[1..], taken + {short.value});
        if rest.None? then None else Some([short.value] + rest.value)
  }

  predicate ListedName(name: string) {
    name != "" && name != "." && name != ".."
  }

  lemma {:induction false} ShortNamesShape(up: Upper, names: seq<string>, taken: set<string>)
    requires ShortNames(up, names, taken).Some?
    requires forall i | 0 <= i < |names| :: ListedName(names[i])
    ensures forall i | 0 <= i < |names| :: ShortShape(ShortNames(up, names, taken).value[i])
  {
    if names == [] {
    } else {
      var short := ShortNames(up, names, taken).value[0];
      if Fits83(names[0]) { assert ListedName(names[0]); FittingNameShape(names[0]); }
      ShortNamesShape(up, names[1..], taken + {short});
    }
  }

  ghost predicate Distinct<T>(s: seq<T>) {
    forall i, j | 0 <= i < j < |s| :: s[i] != s[j]
  }

  /** The short names in use once `names` have been visited. */
  function TakenAfter(up: Upper, names: seq<string>, taken: set<string>): (r: set<string>) {
    if names == [] then taken
    else
      match FirstShort(up, names[0], taken)
      case None => taken
      case Some(short) => TakenAfter(up, names[1..], taken + {short})
  }

  /** An 8.3 name whose own short name is in use when it is visited: the test the
      writer makes for generated names and leaves out for these. */
  ghost predicate Clashes(up: Upper, names: seq<string>, taken: set<string>) {
    exists j | 0 <= j < |names| ::
      Fits83(names[j]) && ShortEntryName(names[j]) in TakenAfter(up, names[..j], taken)
  }

  /** No name in the list repeats, and none is taken from outside it. */
  ghost predicate Fresh(shorts: seq<string>, taken: set<string>) {
    Distinct(shorts) && forall i | 0 <= i < |shorts| :: shorts[i] !in taken
  }

  lemma FreshStep(short: string, rest: seq<string>, taken: set<string>)
    ensures Fresh([short] + rest, taken) <==> short !in taken && Fresh(rest, taken + {short})
  {
    var shorts := [short] + rest;
    assert shorts[0] == short;
    if Fresh(shorts, taken) {
      forall i | 0 <= i < |rest| ensures rest[i] !in taken + {short} {
        assert rest[i] == shorts[i + 1];
      }
      forall i, j | 0 <= i < j < |rest| ensures rest[i] != rest[j] {
        assert rest[i] == shorts[i + 1] && rest[j] == shorts[j + 1];
      }
    }
    if short !in taken && Fresh(rest, taken + {short}) {
      forall i | 0 <= i < |shorts| ensures shorts[i] !in taken {
        assert i > 0 ==> shorts[i] == rest[i - 1];
      }
      forall i, j | 0 <= i < j < |shorts| ensures shorts[i] != shorts[j] {
        assert shorts[j] == rest[j - 1];
        assert i > 0 ==> shorts[i] == rest[i - 1];
      }
    }
  }

  /** Short names are distinct exactly when no 8.3 name meets an earlier one. */
  lemma {:induction false} ShortNamesDistinct(up: Upper, names: seq<string>, taken: set<string>)
    requires ShortNames(up, names, taken).Some?
    ensures Fresh(ShortNames(up, names, taken).value, taken) <==> !Clashes(up, names, taken)
  {
    hide Clashes, Fits83, ShortEntryName, GeneratedName;
    if names == [] {
      NoneClash(up, taken);
    } else {
      var shorts := ShortNames(up, names, taken).value;
      var rest := ShortNames(up, names[1..], taken + {shorts[0]}).value;
      assert shorts == [shorts[0]] + rest;
      ShortNamesDistinct(up, names[1..], taken + {shorts[0]});
      ClashesStep(up, names, taken, shorts[0]);
      FreshStep(shorts[0], rest, taken);
    }
  }

  lemma NoneClash(up: Upper, taken: set<string>)
    ensures !Clashes(up, [], taken)
  {
  }

  lemma TakenStep(up: Upper, names: seq<string>, taken: set<string>, short: string, j: nat)
    requires 0 < j <= |names| && FirstShort(up, names[0], taken) == Some(short)
    ensures TakenAfter(up, names[..j], taken) == TakenAfter(up, names[1..][..j - 1], taken + {short})
  {
    assert names[..j][1..] == names[1..][..j - 1];
  }

  lemma ClashesStep(up: Upper, names: seq<string>, taken: set<string>, short: string)
    requires names != [] && FirstShort(up, names[0], taken) == Some(short)
    ensures Clashes(up, names, taken) <==>
            (Fits83(names[0]) && short in taken) || Clashes(up, names[1..], taken + {short})
  {
    hide Fits83, ShortEntryName, GeneratedName;
    assert names[..0] == [];
    if Clashes(up, names, taken) {
      var j :| 0 <= j < |names| && Fits83(names[j]) && ShortEntryName(names[j]) in TakenAfter(up, names[..j], taken);
      if j > 0 {
        assert names[1..][j - 1] == names[j];
        TakenStep(up, names, taken, short, j);
      }
    }
    if Clashes(up, names[1..], taken + {short}) {
      var j :| 0 <= j < |names[1..]| && Fits83(names[1..][j]) &&
               ShortEntryName(names[1..][j]) in TakenAfter(up, names[1..][..j], taken + {short});
      assert names[j + 1] == names[1..][j];
      TakenStep(up, names, taken, short, j + 1);
    }
  }

  /** What is in use after some names are the short names they were given. */
  lemma {:induction false} TakenAreShorts(up: Upper, names: seq<string>, taken: set<string>, j: nat)
    requires ShortNames(up, names, taken).Some? && j <= |names|
    ensures forall x ::
              x in TakenAfter(up, names[..j], taken) <==> x in taken || x in ShortNames(up, names, taken).value[..j]
    decreases names
  {
    hide FirstShort;
    var shorts := ShortNames(up, names, taken).value;
    if j == 0 {
      assert names[..0] == [];
    } else {
      var short, rest := shorts[0], ShortNames(up, names[1..], taken + {shorts[0]}).value;
      TakenStep(up, names, taken, short, j);
      TakenAreShorts(up, names[1..], taken + {short}, j - 1);
      assert shorts[..j] == [short] + rest[..j - 1];
    }
  }

  // ---- when that happens, and when it cannot ------------------------------------------------

  /** An 8.3 name that can neither look generated nor lose a trailing dot. */
  predicate Plain(name: string) {
    name != "" && '~' !in name && name[|name| - 1] != '.'
  }

  /** A plain name can be read back from its stem and extension. */
  lemma PlainNameParts(a: string, b: string)
    requires Plain(a) && Plain(b) && Stem(a) == Stem(b) && Ext(a) == Ext(b)
    ensures a == b
  {
    PlainNameForm(a);
    PlainNameForm(b);
  }

  lemma PlainNameForm(a: string)
    requires Plain(a)
    ensures a == if Ext(a) == "" then Stem(a) else Stem(a) + "." + Ext(a)
  {
    var i := FirstDot(a);
    if i < |a| {
      assert a == a[..i] + ['.'] + a[i + 1..];
      assert i < |a| - 1;
    }
  }

  lemma PlainShortNameInjective(a: string, b: string)
    requires Fits83(a) && Fits83(b) && Plain(a) && Plain(b)
    requires ShortEntryName(a) == ShortEntryName(b)
    ensures a == b
  {
    var s := ShortEntryName(a);
    assert s[..8] == LJust(Stem(a), 8) && s[..8] == LJust(Stem(b), 8);
    assert s[8..] == LJust(Ext(a), 3) && s[8..] == LJust(Ext(b), 3);
    PaddedEqual(Stem(a), Stem(b), 8);
    PaddedEqual(Ext(a), Ext(b), 3);
    PlainNameParts(a, b);
  }

  lemma PlainShortHasNoTilde(name: string)
    requires Fits83(name) && Plain(name)
    ensures '~' !in ShortEntryName(name)
  {
    var x, y, s := Stem(name), Ext(name), ShortEntryName(name);
    forall i | 0 <= i < |s| ensures s[i] != '~' {
      if i < |LJust(x, 8)| {
        assert i < |x| ==> LJust(x, 8)[..|x|][i] == name[i];
      } else {
        var k := i - |LJust(x, 8)|;
        assert k < |y| ==> LJust(y, 3)[..|y|][k] == name[FirstDot(name) + 1 + k];
      }
    }
  }

  lemma GeneratedHasTilde(b: string, e: string, n: nat)
    requires 1 <= n <= LAST_TRY && |e| <= 3
    ensures '~' in Candidate(b, e, n)
  {
    var h := Head(b, n) + Tail(n);
    assert LJust(h, 8)[..|h|][|Head(b, n)|] == '~';
    assert Candidate(b, e, n)[|Head(b, n)|] == '~';
  }

  /** Which short name entry `i` got: its own, or one with a tilde in it. */
  lemma {:induction false} ShortNamesForm(up: Upper, names: seq<string>, taken: set<string>, i: nat)
    requires ShortNames(up, names, taken).Some? && i < |names|
    ensures var short := ShortNames(up, names, taken).value[i];
            if Fits83(names[i]) then short == ShortEntryName(names[i]) else '~' in short
  {
    var first := FirstShort(up, names[0], taken).value;
    if i > 0 {
      ShortNamesForm(up, names[1..], taken + {first}, i - 1);
    } else {
      FirstShortForm(up, names[0], taken);
    }
  }

  lemma FirstShortForm(up: Upper, name: string, taken: set<string>)
    requires FirstShort(up, name, taken).Some?
    ensures var short := FirstShort(up, name, taken).value;
            if Fits83(name) then short == ShortEntryName(name) else '~' in short
  {
    if !Fits83(name) {
      var b, e := Basis(up, name), BasisExt(up, name);
      GeneratedHasTilde(b, e, FirstFree(b, e, taken, 1).value);
    }
  }

  /** In a directory whose 8.3 names are plain, no two entries share a short name. */
  lemma PlainNamesNeverClash(up: Upper, names: seq<string>)
    requires Distinct(names) && ShortNames(up, names, {}).Some?
    requires forall i | 0 <= i < |names| :: Fits83(names[i]) ==> Plain(names[i])
    ensures Distinct(ShortNames(up, names, {}).value)
  {
    var shorts := ShortNames(up, names, {}).value;
    forall j | 0 <= j < |names| && Fits83(names[j])
      ensures ShortEntryName(names[j]) !in TakenAfter(up, names[..j], {})
    {
      TakenAreShorts(up, names, {}, j);
      forall k | 0 <= k < j ensures shorts[k] != ShortEntryName(names[j]) {
        PlainOthers(up, names, j, k);
      }
    }
    ShortNamesDistinct(up, names, {});
  }

  lemma PlainOthers(up: Upper, names: seq<string>, j: nat, k: nat)
    requires k < j < |names| && names[j] != names[k] && Fits83(names[j]) && ShortNames(up, names, {}).Some?
    requires forall i | 0 <= i < |names| :: Fits83(names[i]) ==> Plain(names[i])
    ensures ShortNames(up, names, {}).value[k] != ShortEntryName(names[j])
  {
    ShortNamesForm(up, names, {}, k);
    PlainShortHasNoTilde(names[j]);
    if Fits83(names[k]) && ShortEntryName(names[j]) == ShortEntryName(names[k]) {
      PlainShortNameInjective(names[j], names[k]);
    }
  }

  lemma ShortNamesOfTwo(up: Upper, a: string, b: string, x: string, y: string)
    requires FirstShort(up, a, {}) == Some(x) && FirstShort(up, b, {} + {x}) == Some(y)
    ensures ShortNames(up, [a, b], {}) == Some([x, y])
  {
    hide FirstShort;
    var one, two := [b], [a, b];
    assert one[1..] == [] && two[1..] == one;
    assert ShortNames(up, [], {} + {x} + {y}) == Some([]);
    assert ShortNames(up, one, {} + {x}) == Some([y] + []);
    assert [x] + ([y] + []) == [x, y];
  }

  lemma StemOfDotted(x: string, y: string)
    requires '.' !in x
    ensures Stem(x) == x && Ext(x) == ""
    ensures Stem(x + "." + y) == x && Ext(x + "." + y) == y
  {
    var w := x + "." + y;
    assert w[..|x|] == x && w[|x| + 1..] == y;
    FirstDotAt(w, |x|);
    assert x[..|x|] == x;
    FirstDotAt(x, |x|);
  }

  lemma {:induction false} FirstDotAt(w: string, k: nat)
    requires k <= |w| && '.' !in w[..k] && (k < |w| ==> w[k] == '.')
    ensures FirstDot(w) == k
  {
    if k == 0 {
    } else {
      assert w[..k] == [w[0]] + w[1..][..k - 1];
      assert w[0] in w[..k];
      FirstDotAt(w[1..], k - 1);
    }
  }

  /** A trailing dot is lost in the 11-byte field, so `X` and `X.` always meet. */
  lemma TrailingDotClash(up: Upper, x: string)
    requires Fits83(x) && '.' !in x
    ensures Fits83(x + ".") && ShortNames(up, [x, x + "."], {}).Some?
    ensures !Distinct(ShortNames(up, [x, x + "."], {}).value)
  {
    StemOfDotted(x, "");
    assert x + "." + "" == x + ".";
    ShortNamesOfTwo(up, x, x + ".", ShortEntryName(x), ShortEntryName(x + "."));
    var r := ShortNames(up, [x, x + "."], {}).value;
    assert r[0] == r[1];
  }

  /** The name that spells out what a long-named entry is about to be given. */
  function Impostor(up: Upper, name: string): string {
    var b, e := Basis(up, name), BasisExt(up, name);
    var h := Head(b, 1) + Tail(1);
    if e == "" then h else h + "." + e
  }

  lemma ImpostorFits(up: Upper, name: string)
    ensures Fits83(Impostor(up, name))
    ensures ShortEntryName(Impostor(up, name)) == Candidate(Basis(up, name), BasisExt(up, name), 1)
  {
    var b, e := Basis(up, name), BasisExt(up, name);
    var h := Head(b, 1) + Tail(1);
    CandidateHead(b, 1);
    StemOfDotted(h, e);
  }

  /** The order in which a directory is visited: by character, a prefix first. */
  predicate Before(a: string, b: string) {
    b != "" && (a == "" || a[0] < b[0] || (a[0] == b[0] && Before(a[1..], b[1..])))
  }

  lemma {:induction false} BeforeIsTotal(a: string, b: string)
    requires a != b
    ensures Before(a, b) <==> !Before(b, a)
  {
    if a == "" || b == "" || a[0] != b[0] {
    } else {
      assert a == [a[0]] + a[1..] && b == [b[0]] + b[1..];
      BeforeIsTotal(a[1..], b[1..]);
    }
  }

  /** Two names in visiting order. */
  function Listing(a: string, b: string): (r: seq<string>) {
    if Before(a, b) then [a, b] else [b, a]
  }

  /** Whatever the long name, let an 8.3 entry spell its generated name. They end up
      with one short name exactly when the long name is visited first; visited
      second, it finds the spelling taken and moves on to the next number. */
  lemma GeneratedNameClash(up: Upper, name: string)
    requires !Fits83(name)
    ensures var names := Listing(name, Impostor(up, name));
            && ShortNames(up, names, {}).Some?
            && (Distinct(ShortNames(up, names, {}).value) <==> Before(Impostor(up, name), name))
  {
    hide Fits83, Before, ShortEntryName, Impostor, Candidate, Basis, BasisExt;
    var imp, b, e := Impostor(up, name), Basis(up, name), BasisExt(up, name);
    ImpostorFits(up, name);
    BeforeIsTotal(name, imp);
    if Before(name, imp) {
      ShortNamesOfTwo(up, name, imp, Candidate(b, e, 1), Candidate(b, e, 1));
      var shorts := ShortNames(up, [name, imp], {}).value;
      assert shorts[0] == shorts[1];
    } else {
      SecondTry(up, name);
      ShortNamesOfTwo(up, imp, name, Candidate(b, e, 1), Candidate(b, e, 2));
    }
  }

  lemma SecondTry(up: Upper, name: string)
    requires !Fits83(name)
    ensures var b, e := Basis(up, name), BasisExt(up, name);
            && Candidate(b, e, 1) != Candidate(b, e, 2)
            && FirstShort(up, name, {} + {Candidate(b, e, 1)}) == Some(Candidate(b, e, 2))
  {
    hide Basis, BasisExt, Candidate, Fits83;
    var b, e := Basis(up, name), BasisExt(up, name);
    if Candidate(b, e, 1) == Candidate(b, e, 2) { CandidateDetermines(b, e, 1, 2); }
    assert FirstFree(b, e, {Candidate(b, e, 1)}, 2) == Some(2);
  }

  /** The smallest such pair: `A B` comes before `AB~1`, and both become `AB~1`. */
  lemma SpacedNameClash(up: Upper)
    requires UpperOk(up) && up(' ') == " "
    ensures Before("A B", "AB~1") && !Fits83("A B") && Fits83("AB~1")
    ensures ShortNames(up, ["A B", "AB~1"], {}) == Some(["AB~1       ", "AB~1       "])
  {
    hide Before, Fits83, FirstShort;
    SpacedNames();
    SpacedShorts(up);
    ShortNamesOfTwo(up, "A B", "AB~1", "AB~1       ", "AB~1       ");
  }

  lemma SpacedNames()
    ensures Before("A B", "AB~1") && !Fits83("A B") && Fits83("AB~1")
  {
    var a, b: string := "A B", "AB~1";
    assert a[1..] == " B" && b[1..] == "B~1";
    StemOfDotted(a, "");
    StemOfDotted(b, "");
    assert !ShortOk(a[1]);
  }

  lemma SpacedShorts(up: Upper)
    requires UpperOk(up) && up(' ') == " " && !Fits83("A B") && Fits83("AB~1")
    ensures FirstShort(up, "A B", {}) == Some("AB~1       ")
    ensures FirstShort(up, "AB~1", {} + {"AB~1       "}) == Some("AB~1       ")
  {
    hide Fits83, Basis, BasisExt, Candidate, ShortEntryName, UpperOk;
    SpacedNameParts(up);
    SpacedCandidate();
  }

  lemma SpacedNameParts(up: Upper)
    requires UpperOk(up) && up(' ') == " "
    ensures Basis(up, "A B") == "AB" && BasisExt(up, "A B") == ""
  {
    var n: string := "A B";
    assert up('A') == "A" && up('B') == "B";
    assert n[1..] == " B" && n[1..][1..] == "B" && n[1..][1..][1..] == "";
    assert Uppercase(up, n) == n;
    assert Clean(n) == "AB";
  }

  lemma SpacedCandidate()
    ensures Candidate("AB", "", 1) == "AB~1       " == ShortEntryName("AB~1")
  {
    assert Decimal(1) == "1" && Tail(1) == "~1" && Head("AB", 1) == "AB";
    assert LJust("AB~1", 8) == "AB~1    " && LJust("", 3) == "   ";
    StemOfDotted("AB~1", "");
  }

  /** Upper-casing ASCII letters as everywhere. */
  ghost predicate AsciiUpper(up: Upper) {
    forall c: char | 'a' <= c <= 'z' :: up(c) == [c - 32 as char]
  }

  /** An everyday name: lower case does not fit, so `config.txt` becomes `CONFIG~1.TXT`. */
  lemma ConfigIs(up: Upper)
    requires UpperOk(up) && AsciiUpper(up)
    ensures !Fits83("config.txt") && FirstShort(up, "config.txt", {}) == Some("CONFIG~1TXT")
  {
    ConfigParts();
    ConfigUpper(up);
    ConfigClean();
    ConfigCandidate();
    hide Fits83, BasePart, ExtPart, Uppercase, Clean, Candidate;
  }

  lemma ConfigParts()
    ensures !Fits83("config.txt") && BasePart("config.txt") == "config" && ExtPart("config.txt") == "txt"
  {
    var s: string := "config.txt";
    assert "config" + "." + "txt" == s;
    StemOfDotted("config", "txt");
    assert !ShortOk("config"[0]);
    LastDotAt(s, 6);
    assert s[..6] == "config" && s[7..] == "txt";
  }

  lemma LastDotAt(s: string, k: nat)
    requires k < |s| && s[k] == '.' && '.' !in s[k + 1..]
    ensures LastDot(s) == k
  {
    var r := LastDot(s);
    assert '.' !in s[r + 1..];
  }

  lemma ConfigUpper(up: Upper)
    requires AsciiUpper(up)
    ensures Uppercase(up, "config") == "CONFIG" && Uppercase(up, "txt") == "TXT"
  {
    assert up('c') == "C" && up('o') == "O" && up('n') == "N" && up('f') == "F" && up('i') == "I" && up('g') == "G";
    assert up('t') == "T" && up('x') == "X";
    UpperTail(up, "config", "onfig");
    UpperTail(up, "onfig", "nfig");
    UpperTail(up, "nfig", "fig");
    UpperTail(up, "fig", "ig");
    UpperTail(up, "ig", "g");
    UpperTail(up, "g", "");
    UpperTail(up, "txt", "xt");
    UpperTail(up, "xt", "t");
    UpperTail(up, "t", "");
  }

  lemma UpperTail(up: Upper, s: string, rest: string)
    requires s != "" && s[1..] == rest
    ensures Uppercase(up, s) == up(s[0]) + Uppercase(up, rest) && Uppercase(up, "") == ""
  {
  }

  lemma ConfigClean()
    ensures Clean("CONFIG") == "CONFIG" && Clean("TXT") == "TXT"
  {
    AllCleanFixed("CONFIG");
    AllCleanFixed("TXT");
  }

  lemma {:induction false} AllCleanFixed(s: string)
    requires AllShortOk(s)
    ensures Clean(s) == s
  {
    if s == "" {
    } else {
      AllCleanFixed(s[1..]);
      assert s == [s[0]] + s[1..];
    }
  }

  lemma ConfigCandidate()
    ensures Candidate("CONFIG", "TXT", 1) == "CONFIG~1TXT"
  {
    assert Decimal(1) == "1" && Tail(1) == "~1" && Head("CONFIG", 1) == "CONFIG";
    assert LJust("CONFIG~1", 8) == "CONFIG~1" && LJust("TXT", 3) == "TXT";
  }
}
