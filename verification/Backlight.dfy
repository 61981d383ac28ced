/** The display backlight: any number of requesters and snapshot readers share
    `pending`, `target` and the cache with one worker. Every atomic access is one
    action; a run is any sequence of enabled actions, so the statements about runs
    hold for every interleaving. Firmware results are chosen by the environment. */
module Backlight {
  import opened Bytes

  const EIO := -5
  const ENOMEM := -12
  const ENODEV := -19
  const EBUSY := -16
  const EINVAL := -22

  // ---- choosing a level ------------------------------------------------------------------

  function Distance(a: nat, b: nat): (r: nat) { if a > b then a - b else b - a }

  /** `best` is a level nearest to `percent`, and the first such in the list. */
  ghost predicate Nearest(levels: seq<nat>, percent: nat, best: nat) {
    exists k | 0 <= k < |levels| ::
      && levels[k] == best
      && (forall i | 0 <= i < |levels| :: Distance(best, percent) <= Distance(levels[i], percent))
      && (forall i | 0 <= i < k :: Distance(best, percent) < Distance(levels[i], percent))
  }

  method ChooseLevel(levels: seq<nat>, percent: nat) returns (best: nat)
    requires levels != [] && percent <= 100 && forall i | 0 <= i < |levels| :: levels[i] <= 100
    ensures Nearest(levels, percent, best)
  {
    best := levels[0];
    var distance := 101;
    ghost var k := 0;
    for i := 0 to |levels|
      invariant k < |levels| && levels[k] == best
      invariant i > 0 ==> distance == Distance(best, percent) && k < i
      invariant i == 0 ==> distance == 101
      invariant i > 0 ==> forall j | 0 <= j < i :: Distance(best, percent) <= Distance(levels[j], percent)
      invariant forall j | 0 <= j < k :: Distance(best, percent) < Distance(levels[j], percent)
    {
      var d := Distance(levels[i], percent);
      if d < distance {
        distance := d;
        best := levels[i];
        k := i;
      }
    }
  }

  /** The nearest level is determined. */
  lemma NearestUnique(levels: seq<nat>, percent: nat, a: nat, b: nat)
    requires Nearest(levels, percent, a) && Nearest(levels, percent, b)
    ensures a == b
  {
    var j :| 0 <= j < |levels| && levels[j] == a
             && (forall i | 0 <= i < |levels| :: Distance(a, percent) <= Distance(levels[i], percent))
             && (forall i | 0 <= i < j :: Distance(a, percent) < Distance(levels[i], percent));
    var k :| 0 <= k < |levels| && levels[k] == b
             && (forall i | 0 <= i < |levels| :: Distance(b, percent) <= Distance(levels[i], percent))
             && (forall i | 0 <= i < k :: Distance(b, percent) < Distance(levels[i], percent));
    assert Distance(a, percent) == Distance(b, percent);
    assert j == k;
  }

  lemma {:induction false} NearestExists(levels: seq<nat>, percent: nat, n: nat)
    requires 1 <= n <= |levels|
    ensures exists best :: Nearest(levels[..n], percent, best)
    ensures n == |levels| ==> exists best :: Nearest(levels, percent, best)
  {
    assert levels[..|levels|] == levels;
    if n == 1 {
      assert levels[..n][0] == levels[0] && Nearest(levels[..n], percent, levels[0]);
    } else {
      NearestExists(levels, percent, n - 1);
      var best :| Nearest(levels[..n - 1], percent, best);
      NearestExtends(levels[..n - 1], levels[n - 1], percent, best);
      assert levels[..n] == levels[..n - 1] + [levels[n - 1]];
    }
  }

  lemma NearestExtends(levels: seq<nat>, next: nat, percent: nat, best: nat)
    requires Nearest(levels, percent, best)
    ensures Nearest(levels + [next], percent, if Distance(next, percent) < Distance(best, percent) then next else best)
  {
    var k :| 0 <= k < |levels| && levels[k] == best
             && (forall i | 0 <= i < |levels| :: Distance(best, percent) <= Distance(levels[i], percent))
             && (forall i | 0 <= i < k :: Distance(best, percent) < Distance(levels[i], percent));
    var all := levels + [next];
    if Distance(next, percent) < Distance(best, percent) {
      assert all[|levels|] == next;
    } else {
      assert all[k] == best;
    }
  }

  // ---- finding the levels ---------------------------------------------------------------------

  datatype Element = Missing | Integer(value: nat) | Other

  predicate UsableElement(e: Element) { e.Integer? && e.value <= 100 }

  predicate UsablePackage(pkg: seq<Element>) {
    3 <= |pkg| <= 34 && forall i | 0 <= i < |pkg| :: UsableElement(pkg[i])
  }

  ghost predicate NoRepeats(levels: seq<nat>) { forall i, j | 0 <= i < j < |levels| :: levels[i] != levels[j] }

  /** Add a level unless it is already listed. */
  method AddLevel(levels: seq<nat>, v: nat) returns (r: seq<nat>)
    requires NoRepeats(levels)
    ensures r == (if v in levels then levels else levels + [v]) && NoRepeats(r)
  {
    var j := 0;
    while j < |levels| && levels[j] != v
      invariant 0 <= j <= |levels| && forall a | 0 <= a < j :: levels[a] != v
    {
      j := j + 1;
    }
    r := if j == |levels| then levels + [v] else levels;
  }

  /** Exactly the values of elements `2..i` are listed. */
  ghost predicate Listed(pkg: seq<Element>, i: nat, levels: seq<nat>) {
    && i <= |pkg|
    && (forall v | v in levels :: exists j | 2 <= j < i :: pkg[j] == Integer(v))
    && (forall j | 2 <= j < i :: pkg[j].Integer? && pkg[j].value in levels)
  }

  lemma ListedMore(pkg: seq<Element>, i: nat, levels: seq<nat>, v: nat)
    requires Listed(pkg, i, levels) && 2 <= i < |pkg| && pkg[i] == Integer(v)
    ensures Listed(pkg, i + 1, if v in levels then levels else levels + [v])
  {
  }

  /** The distinct levels from the third element on, in order of first appearance:
      never more than the 32 the record has room for. */
  method Discover(pkg: seq<Element>) returns (levels: seq<nat>, valid: bool)
    ensures valid <==> UsablePackage(pkg)
    ensures |levels| <= 32 && NoRepeats(levels)
    ensures valid ==> levels != [] && Listed(pkg, |pkg|, levels)
    ensures forall v | v in levels :: v <= 100
  {
    hide Listed, NoRepeats;
    levels, valid := [], 3 <= |pkg| <= 34;
    NothingListed(pkg);
    var i := 0;
    while valid && i < |pkg|
      invariant 0 <= i <= |pkg| && (valid ==> 3 <= |pkg| <= 34)
      invariant valid ==> forall j | 0 <= j < i :: UsableElement(pkg[j])
      invariant !valid ==> !UsablePackage(pkg)
      invariant |levels| <= (if i < 2 then 0 else i - 2) && i <= 34
      invariant NoRepeats(levels) && forall v | v in levels :: v <= 100
      invariant Listed(pkg, i, levels)
      decreases |pkg| - i, valid
    {
      var e := pkg[i];
      if !UsableElement(e) {
        valid := false;
        break;
      }
      if i >= 2 {
        ListedMore(pkg, i, levels, e.value);
        levels := AddLevel(levels, e.value);
      } else {
        HeadListed(pkg, i);
      }
      i := i + 1;
    }
    if valid { SomeListed(pkg, levels); }
  }

  lemma NothingListed(pkg: seq<Element>)
    ensures Listed(pkg, 0, []) && NoRepeats([])
  {
  }

  lemma HeadListed(pkg: seq<Element>, i: nat)
    requires i < 2 && i < |pkg|
    ensures Listed(pkg, i + 1, [])
  {
  }

  lemma SomeListed(pkg: seq<Element>, levels: seq<nat>)
    requires |pkg| >= 3 && Listed(pkg, |pkg|, levels)
    ensures levels != []
  {
    assert pkg[2].value in levels;
  }

  // ---- the shared state -------------------------------------------------------------------------

  datatype Device = NoDevice | Panel | Native

  /** What one worker round with a request in hand came to, and what it came from: the reading,
      whether the argument could be made, and the answer of a native set call. */
  datatype Outcome = Outcome(level: nat, code: int, reading: Option<nat>, argument: bool, answer: int)

  /** What a call was answered. */
  datatype Answer = Answer(percent: nat, code: int)

  datatype Worker =
    | Resting
    | GotPending(apply: bool)
    | GotTarget(apply: bool, wanted: nat)
    | Measured(apply: bool, result: Outcome)
    | Writing(apply: bool, result: Outcome)
    | Written(apply: bool)
    | Unlocked(apply: bool)

  datatype Requester =
    | Waiting(percent: nat)
    | Checking(percent: nat)
    | Refused(percent: nat)
    | Chosen(percent: nat, best: nat)
    | Stored(percent: nat, best: nat)
    | Accepted(percent: nat)

  datatype Cache = Cache(percent: nat, known: bool, sampled: nat, lastError: int)

  /** `version` and `seen` are history: how many cache writes and how many published outcomes
      came before the copy was taken. */
  datatype Reader =
    | Entering
    | Copying
    | Copied(copy: Cache, version: nat, seen: nat)
    | Leaving(copy: Cache, version: nat, seen: nat)

  datatype Snapshot = Snapshot(copy: Cache, version: nat, seen: nat, busy: bool)

  datatype Owner = Working | Requesting(id: nat) | Reading(id: nat)

  /** The fields after `readers` are history: nothing the code does depends on them. `tried`
      has one outcome for each round made for a request, also when the panel was never asked
      because no memory was left for the argument. */
  datatype State = State(
    device: Device, levels: seq<nat>,
    pending: bool, target: nat, cache: Cache, lock: Option<Owner>,
    worker: Worker, requesters: map<nat, Requester>, readers: map<nat, Reader>,
    asked: seq<nat>, accepted: seq<nat>, tried: seq<Outcome>, published: seq<Outcome>, completed: nat,
    granted: nat, answers: seq<Answer>, writes: seq<Cache>, snapshots: seq<Snapshot>)

  datatype Action =
    | Call(id: nat, percent: nat)
    | Lock(id: nat)
    | Check(id: nat, best: nat)
    | StoreTarget(id: nat)
    | StorePending(id: nat)
    | Return(id: nat)
    | Open(id: nat)
    | LockCopy(id: nat)
    | Copy(id: nat)
    | UnlockCopy(id: nat)
    | Sample(id: nat)
    | LoadPending
    | LoadTarget
    | Measure(argument: bool, answer: int, reading: Option<nat>)
    | LockWrite
    | Write(now: nat)
    | UnlockWrite
    | Finish

  predicate IsWorker(a: Action) {
    a.LoadPending? || a.LoadTarget? || a.Measure? || a.LockWrite? || a.Write? || a.UnlockWrite? || a.Finish?
  }

  predicate IsRequest(a: Action) {
    a.Call? || a.Lock? || a.Check? || a.StoreTarget? || a.StorePending? || a.Return?
  }

  predicate IsRead(a: Action) { a.Open? || a.LockCopy? || a.Copy? || a.UnlockCopy? || a.Sample? }

  /** What a call answers before it touches the lock. */
  function Precheck(device: Device, percent: nat): int {
    if percent > 100 then EINVAL else if device == NoDevice then ENODEV else 0
  }

  function ResultCode(device: Device, apply: bool, wanted: nat, argument: bool, answer: int, reading: Option<nat>): int {
    match device
    case NoDevice => 0
    case Native => if apply then answer else 0
    case Panel =>
      if !apply then 0
      else if !argument then ENOMEM
      else if reading == Some(wanted) then 0 else EIO
  }

  /** Firmware decides the reading, but the panel path believes only a listed level. */
  predicate Believed(s: State, reading: Option<nat>) {
    match s.device
    case NoDevice => reading == None
    case Native => true
    case Panel => reading == None || reading.value in s.levels
  }

  ghost predicate Can(s: State, a: Action) {
    match a
    case Call(id, percent) => id !in s.requesters
    case Lock(id) => id in s.requesters && s.requesters[id].Waiting? && s.lock == None
    case Check(id, best) => id in s.requesters && s.requesters[id].Checking?
                            && Nearest(s.levels, s.requesters[id].percent, best)
    case StoreTarget(id) => id in s.requesters && s.requesters[id].Chosen?
    case StorePending(id) => id in s.requesters && s.requesters[id].Stored?
    case Return(id) => id in s.requesters && (s.requesters[id].Refused? || s.requesters[id].Accepted?)
    case Open(id) => id !in s.readers
    case LockCopy(id) => id in s.readers && s.readers[id].Entering? && s.lock == None
    case Copy(id) => id in s.readers && s.readers[id].Copying?
    case UnlockCopy(id) => id in s.readers && s.readers[id].Copied?
    case Sample(id) => id in s.readers && s.readers[id].Leaving?
    case LoadPending => s.worker.Resting?
    case LoadTarget => s.worker.GotPending?
    case Measure(argument, answer, reading) => s.worker.GotTarget? && Believed(s, reading)
    case LockWrite => s.worker.Measured? && s.lock == None
    case Write(now) => s.worker.Writing?
    case UnlockWrite => s.worker.Written?
    case Finish => s.worker.Unlocked?
  }

  function DoRequest(s: State, a: Action): State
    requires IsRequest(a) && Can(s, a)
  {
    match a
    case Call(id, percent) =>
      if Precheck(s.device, percent) != 0 then s.(answers := s.answers + [Answer(percent, Precheck(s.device, percent))])
      else s.(requesters := s.requesters[id := Waiting(percent)])
    case Lock(id) =>
      s.(lock := Some(Requesting(id)), requesters := s.requesters[id := Checking(s.requesters[id].percent)])
    case Check(id, best) =>
      var percent := s.requesters[id].percent;
      s.(requesters := s.requesters[id := if s.pending then Refused(percent) else Chosen(percent, best)])
    case StoreTarget(id) =>
      var r := s.requesters[id];
      s.(target := r.best, requesters := s.requesters[id := Stored(r.percent, r.best)])
    case StorePending(id) =>
      var r := s.requesters[id];
      s.(pending := true, requesters := s.requesters[id := Accepted(r.percent)],
         asked := s.asked + [r.percent], accepted := s.accepted + [r.best])
    case Return(id) =>
      var r := s.requesters[id];
      s.(lock := None, requesters := s.requesters - {id},
         granted := if r.Accepted? then s.granted + 1 else s.granted,
         answers := s.answers + [Answer(r.percent, if r.Accepted? then 0 else EBUSY)])
  }

  function DoRead(s: State, a: Action): State
    requires IsRead(a) && Can(s, a)
  {
    match a
    case Open(id) => s.(readers := s.readers[id := Entering])
    case LockCopy(id) => s.(lock := Some(Reading(id)), readers := s.readers[id := Copying])
    case Copy(id) => s.(readers := s.readers[id := Copied(s.cache, |s.writes|, |s.published|)])
    case UnlockCopy(id) =>
      var r := s.readers[id];
      s.(lock := None, readers := s.readers[id := Leaving(r.copy, r.version, r.seen)])
    case Sample(id) =>
      var r := s.readers[id];
      s.(readers := s.readers - {id},
         snapshots := s.snapshots + [Snapshot(r.copy, r.version, r.seen, s.pending)])
  }

  function DoWork(s: State, a: Action): State
    requires IsWorker(a) && Can(s, a)
  {
    var w := s.worker;
    match a
    case LoadPending => s.(worker := GotPending(s.pending))
    case LoadTarget => s.(worker := GotTarget(w.apply, s.target))
    case Measure(argument, answer, reading) =>
      var code := ResultCode(s.device, w.apply, w.wanted, argument, answer, reading);
      var result := Outcome(w.wanted, code, reading, argument, answer);
      s.(worker := Measured(w.apply, result), tried := if w.apply then s.tried + [result] else s.tried)
    case LockWrite => s.(lock := Some(Working), worker := Writing(w.apply, w.result))
    case Write(now) =>
      var c := Cache(if w.result.reading.Some? then w.result.reading.value else s.cache.percent,
                     w.result.reading.Some?, now,
                     if w.apply then w.result.code else s.cache.lastError);
      s.(worker := Written(w.apply), cache := c, writes := s.writes + [c],
         published := if w.apply then s.published + [w.result] else s.published)
    case UnlockWrite => s.(lock := None, worker := Unlocked(w.apply))
    case Finish =>
      if w.apply then s.(worker := Resting, pending := false, completed := s.completed + 1)
      else s.(worker := Resting)
  }

  function Do(s: State, a: Action): State
    requires Can(s, a)
  {
    if IsWorker(a) then DoWork(s, a)
    else if IsRead(a) then DoRead(s, a)
    else DoRequest(s, a)
  }

  ghost predicate Start(s: State) {
    && !s.pending && s.lock == None && s.worker == Resting && s.requesters == map[] && s.readers == map[]
    && s.cache.lastError == 0 && s.writes == [s.cache] && (s.device != NoDevice ==> s.levels != [])
    && s.asked == [] && s.accepted == [] && s.tried == [] && s.published == [] && s.completed == 0
    && s.granted == 0 && s.answers == [] && s.snapshots == []
  }

  ghost predicate Legal(s: State, run: seq<Action>)
    decreases |run|
  {
    run == [] || (Can(s, run[0]) && Legal(Do(s, run[0]), run[1..]))
  }

  ghost function After(s: State, run: seq<Action>): State
    requires Legal(s, run)
    decreases |run|
  {
    if run == [] then s else After(Do(s, run[0]), run[1..])
  }

  // ---- what every step keeps ---------------------------------------------------------------------

  predicate RequesterHolds(r: Requester) { !r.Waiting? }

  predicate ReaderHolds(r: Reader) { r.Copying? || r.Copied? }

  predicate WorkerHolds(w: Worker) { w.Writing? || w.Written? }

  /** Mutual exclusion: whoever is between lock and unlock is the recorded owner. */
  ghost predicate LockOk(s: State) {
    && (WorkerHolds(s.worker) <==> s.lock == Some(Working))
    && (forall id | id in s.requesters :: RequesterHolds(s.requesters[id]) <==> s.lock == Some(Requesting(id)))
    && (forall id | id in s.readers :: ReaderHolds(s.readers[id]) <==> s.lock == Some(Reading(id)))
    && (s.lock.Some? && s.lock.value.Requesting? ==> s.lock.value.id in s.requesters)
    && (s.lock.Some? && s.lock.value.Reading? ==> s.lock.value.id in s.readers)
  }

  /** A requester that found nothing pending still finds nothing pending. */
  ghost predicate RequestsOk(s: State) {
    forall id | id in s.requesters ::
      var r := s.requesters[id];
      && (r.Chosen? || r.Stored? ==> !s.pending && Nearest(s.levels, r.percent, r.best))
      && (r.Stored? ==> s.target == r.best)
  }

  ghost predicate CountsOk(s: State) {
    && |s.accepted| == s.completed + (if s.pending then 1 else 0)
    && |s.asked| == |s.accepted|
    && (forall i | 0 <= i < |s.accepted| :: Nearest(s.levels, s.asked[i], s.accepted[i]))
    && (s.pending ==> s.target == s.accepted[|s.accepted| - 1])
    && |s.accepted| == s.granted + (if Granting(s) then 1 else 0)
  }

  ghost predicate Granting(s: State) {
    s.lock.Some? && s.lock.value.Requesting? && s.lock.value.id in s.requesters
    && s.requesters[s.lock.value.id].Accepted?
  }

  function TriedBy(w: Worker): nat {
    if w.Resting? || w.GotPending? || w.GotTarget? || !w.apply then 0 else 1
  }

  function PublishedBy(w: Worker): nat {
    if (w.Written? || w.Unlocked?) && w.apply then 1 else 0
  }

  /** On the panel path an outcome reports success exactly for a read-back match, lack of memory
      exactly when the argument could not be made; on the native path, the answer it got. */
  ghost predicate Honest(s: State, o: Outcome) {
    && (s.device == Panel ==>
          && (o.code == 0 <==> o.argument && o.reading == Some(o.level))
          && (o.code == ENOMEM <==> !o.argument)
          && (o.code == EIO <==> o.argument && o.reading != Some(o.level)))
    && (s.device == Native ==> o.code == o.answer)
  }

  ghost predicate WorkerOk(s: State) {
    var w := s.worker;
    && (!w.Resting? && w.apply ==> s.pending)
    && (w.GotTarget? && w.apply ==> w.wanted == s.target)
    && |s.tried| == s.completed + TriedBy(w) <= |s.accepted|
    && |s.published| == s.completed + PublishedBy(w) <= |s.tried|
    && (forall i | 0 <= i < |s.tried| :: s.tried[i].level == s.accepted[i] && Honest(s, s.tried[i]))
    && (forall i | 0 <= i < |s.published| :: s.published[i] == s.tried[i])
    && ((w.Measured? || w.Writing?) && w.apply ==> w.result == s.tried[s.completed])
  }

  function ErrorAfter(published: seq<Outcome>): int {
    if published == [] then 0 else published[|published| - 1].code
  }

  /** The copy is cache write number `version`, whole, made after outcome number `seen`. */
  ghost predicate CopyOk(s: State, copy: Cache, version: nat, seen: nat) {
    && 1 <= version <= |s.writes| && copy == s.writes[version - 1]
    && seen <= |s.published| && copy.lastError == ErrorAfter(s.published[..seen])
  }

  ghost predicate HasCopy(r: Reader) { r.Copied? || r.Leaving? }

  ghost predicate ReadersOk(s: State) {
    && s.cache.lastError == ErrorAfter(s.published)
    && s.writes != [] && s.cache == s.writes[|s.writes| - 1]
    && (forall id | id in s.readers && HasCopy(s.readers[id]) ::
          CopyOk(s, s.readers[id].copy, s.readers[id].version, s.readers[id].seen))
    && (forall i | 0 <= i < |s.snapshots| ::
          CopyOk(s, s.snapshots[i].copy, s.snapshots[i].version, s.snapshots[i].seen))
  }

  ghost predicate DeviceOk(s: State) {
    if s.device == NoDevice then s.requesters == map[] && !s.pending else s.levels != []
  }

  ghost predicate Inv(s: State) {
    LockOk(s) && RequestsOk(s) && CountsOk(s) && WorkerOk(s) && ReadersOk(s) && DeviceOk(s)
  }

  /** Only the lock's owner is past its check. */
  lemma OneInside(s: State, i: nat, j: nat)
    requires LockOk(s) && i in s.requesters && j in s.requesters
    requires RequesterHolds(s.requesters[i]) && RequesterHolds(s.requesters[j])
    ensures i == j
  {
  }

  lemma RequestKeepsLock(s: State, a: Action)
    requires LockOk(s) && RequestsOk(s) && IsRequest(a) && Can(s, a)
    ensures LockOk(DoRequest(s, a))
  {
  }

  lemma RequestKeepsRequests(s: State, a: Action)
    requires LockOk(s) && RequestsOk(s) && IsRequest(a) && Can(s, a)
    ensures RequestsOk(DoRequest(s, a))
  {
    forall i, j | i in s.requesters && j in s.requesters
                  && RequesterHolds(s.requesters[i]) && RequesterHolds(s.requesters[j])
      ensures i == j
    {
      OneInside(s, i, j);
    }
  }

  lemma RequestKeepsCounts(s: State, a: Action)
    requires LockOk(s) && RequestsOk(s) && CountsOk(s) && IsRequest(a) && Can(s, a)
    ensures CountsOk(DoRequest(s, a))
  {
    hide Nearest;
  }

  lemma RequestKeepsWorker(s: State, a: Action)
    requires LockOk(s) && RequestsOk(s) && CountsOk(s) && WorkerOk(s) && IsRequest(a) && Can(s, a)
    ensures WorkerOk(DoRequest(s, a))
  {
    hide LockOk, Nearest, Honest, Granting;
    HonestyLasts(s, DoRequest(s, a));
  }

  lemma HonestyLasts(s: State, t: State)
    requires s.device == t.device
    ensures forall o :: Honest(s, o) ==> Honest(t, o)
  {
  }

  lemma RequestKeepsRest(s: State, a: Action)
    requires ReadersOk(s) && DeviceOk(s) && IsRequest(a) && Can(s, a)
    ensures ReadersOk(DoRequest(s, a)) && DeviceOk(DoRequest(s, a))
    ensures DoRequest(s, a).device == s.device && DoRequest(s, a).levels == s.levels
  {
    RequestLeaves(s, a);
    RequestKeepsDevice(s, a);
    hide DoRequest, Can, DeviceOk;
    ReadersSame(s, DoRequest(s, a));
  }

  lemma RequestLeaves(s: State, a: Action)
    requires IsRequest(a) && Can(s, a)
    ensures var t := DoRequest(s, a);
            && t.device == s.device && t.levels == s.levels && t.readers == s.readers && t.snapshots == s.snapshots
            && t.cache == s.cache && t.writes == s.writes && t.published == s.published && t.worker == s.worker
            && t.completed == s.completed
  {
    hide Nearest;
  }

  lemma ReadersSame(s: State, t: State)
    requires ReadersOk(s) && t.readers == s.readers && t.snapshots == s.snapshots && t.cache == s.cache
    requires t.writes == s.writes && t.published == s.published && t.worker == s.worker && t.completed == s.completed
    ensures ReadersOk(t)
  {
  }

  lemma RequestKeepsDevice(s: State, a: Action)
    requires DeviceOk(s) && IsRequest(a) && Can(s, a)
    ensures DeviceOk(DoRequest(s, a))
  {
    hide Nearest;
  }

  lemma ReadKeepsLock(s: State, a: Action)
    requires LockOk(s) && IsRead(a) && Can(s, a)
    ensures LockOk(DoRead(s, a))
  {
  }

  lemma ReadKeepsRest(s: State, a: Action)
    requires Inv(s) && IsRead(a) && Can(s, a)
    ensures RequestsOk(DoRead(s, a)) && CountsOk(DoRead(s, a)) && WorkerOk(DoRead(s, a)) && DeviceOk(DoRead(s, a))
    ensures DoRead(s, a).device == s.device && DoRead(s, a).levels == s.levels
  {
    hide Nearest, Honest, ReadersOk;
    HonestyLasts(s, DoRead(s, a));
  }

  lemma ReadKeepsReaders(s: State, a: Action)
    requires ReadersOk(s) && IsRead(a) && Can(s, a)
    ensures ReadersOk(DoRead(s, a))
  {
    assert s.published[..|s.published|] == s.published;
  }

  lemma WorkKeepsLock(s: State, a: Action)
    requires LockOk(s) && RequestsOk(s) && DeviceOk(s) && IsWorker(a) && Can(s, a)
    ensures LockOk(DoWork(s, a)) && RequestsOk(DoWork(s, a)) && DeviceOk(DoWork(s, a))
    ensures DoWork(s, a).device == s.device && DoWork(s, a).levels == s.levels
  {
    hide Nearest, Believed, ResultCode;
  }

  lemma WorkKeepsCounts(s: State, a: Action)
    requires LockOk(s) && CountsOk(s) && WorkerOk(s) && IsWorker(a) && Can(s, a)
    ensures CountsOk(DoWork(s, a))
  {
    hide Nearest, Believed, ResultCode, Honest;
  }

  /** The code computed for a request is an honest one. */
  lemma MeasuredHonestly(s: State, wanted: nat, argument: bool, answer: int, reading: Option<nat>)
    ensures Honest(s, Outcome(wanted, ResultCode(s.device, true, wanted, argument, answer, reading), reading, argument, answer))
  {
  }

  lemma WorkKeepsWorker(s: State, a: Action)
    requires CountsOk(s) && WorkerOk(s) && IsWorker(a) && Can(s, a)
    ensures WorkerOk(DoWork(s, a))
  {
    hide Nearest, Believed, ResultCode, Honest, Granting;
    HonestyLasts(s, DoWork(s, a));
    if a.Measure? { MeasuredHonestly(s, s.worker.wanted, a.argument, a.answer, a.reading); }
  }

  lemma WorkKeepsReaders(s: State, a: Action)
    requires ReadersOk(s) && IsWorker(a) && Can(s, a)
    ensures ReadersOk(DoWork(s, a))
  {
    hide Nearest, Believed, ResultCode;
    var t := DoWork(s, a);
    assert forall k | 0 <= k <= |s.published| :: t.published[..k] == s.published[..k];
  }

  lemma Step(s: State, a: Action)
    requires Inv(s) && Can(s, a)
    ensures Inv(Do(s, a)) && Do(s, a).device == s.device && Do(s, a).levels == s.levels
  {
    hide LockOk, RequestsOk, CountsOk, WorkerOk, ReadersOk, DeviceOk, DoRequest, DoRead, DoWork, Can;
    if IsWorker(a) {
      WorkKeepsLock(s, a);
      WorkKeepsCounts(s, a);
      WorkKeepsWorker(s, a);
      WorkKeepsReaders(s, a);
    } else if IsRead(a) {
      ReadKeepsLock(s, a);
      ReadKeepsRest(s, a);
      ReadKeepsReaders(s, a);
    } else {
      RequestKeepsLock(s, a);
      RequestKeepsRequests(s, a);
      RequestKeepsCounts(s, a);
      RequestKeepsWorker(s, a);
      RequestKeepsRest(s, a);
    }
  }

  lemma {:induction false} RunKeeps(s: State, run: seq<Action>)
    requires Inv(s) && Legal(s, run)
    ensures Inv(After(s, run)) && After(s, run).device == s.device && After(s, run).levels == s.levels
    decreases |run|
  {
    hide Inv, Do, Can;
    if run == [] {
    } else {
      Step(s, run[0]);
      RunKeeps(Do(s, run[0]), run[1..]);
    }
  }

  ghost predicate Reached(s: State) {
    exists start, run :: Start(start) && Legal(start, run) && After(start, run) == s
  }

  lemma ReachedInv(s: State)
    requires Reached(s)
    ensures Inv(s)
  {
    var start, run :| Start(start) && Legal(start, run) && After(start, run) == s;
    assert Inv(start);
    RunKeeps(start, run);
  }

  // ---- what that means for callers -------------------------------------------------------------------

  /** In every reachable state: the levels tried are, in order, those of the first accepted
      requests, each once, and each is the level nearest to what was asked for; only the
      newest can be outstanding, and none is while nothing is pending. */
  lemma AppliedExactlyOnce(s: State)
    requires Reached(s)
    ensures |s.published| <= |s.tried| <= |s.accepted| <= |s.published| + 1
    ensures forall i | 0 <= i < |s.tried| :: s.tried[i].level == s.accepted[i]
    ensures forall i | 0 <= i < |s.published| :: s.published[i] == s.tried[i]
    ensures |s.asked| == |s.accepted| && forall i | 0 <= i < |s.accepted| :: Nearest(s.levels, s.asked[i], s.accepted[i])
    ensures !s.pending ==> |s.published| == |s.accepted|
    ensures s.granted <= |s.accepted| <= s.granted + 1
  {
    ReachedInv(s);
  }

  lemma OnlyStorePending(s: State, a: Action)
    requires Can(s, a)
    ensures |Do(s, a).accepted| > |s.accepted| ==> a.StorePending?
    ensures s.pending && !Do(s, a).pending ==> a == Finish && s.worker.Unlocked? && s.worker.apply
  {
    hide Nearest, Believed, ResultCode, Precheck;
  }

  /** A request is taken on only when every earlier one is finished. */
  lemma NoSecondAcceptance(s: State, a: Action)
    requires Reached(s) && Can(s, a) && |Do(s, a).accepted| > |s.accepted|
    ensures a.StorePending? && !s.pending && |s.published| == |s.accepted| == s.completed
    ensures s.worker.Resting? || !s.worker.apply
  {
    OnlyStorePending(s, a);
    hide Do, Nearest, Honest, ReadersOk, DeviceOk, LockOk;
    ReachedInv(s);
  }

  /** `pending` is withdrawn only by the worker, after publishing that request's outcome. */
  lemma NotLost(s: State, a: Action)
    requires Reached(s) && Can(s, a) && s.pending && !Do(s, a).pending
    ensures a == Finish && s.accepted != [] && |s.published| == |s.accepted|
    ensures s.published[|s.published| - 1].level == s.accepted[|s.accepted| - 1]
  {
    OnlyStorePending(s, a);
    hide Do, Nearest, Honest, ReadersOk, DeviceOk, LockOk, RequestsOk;
    ReachedInv(s);
  }

  /** On the ACPI panel an outcome is a success exactly when the argument could be made and the
      level accepted was read back, out of memory exactly when it could not be made, and an
      input-output error otherwise; on the native path it is the set call's own answer. */
  lemma SuccessWasReadBack(s: State, i: nat)
    requires Reached(s) && i < |s.published|
    ensures |s.published| <= |s.accepted|
    ensures var o := s.published[i];
            && (s.device == Panel ==>
                  o.code == if !o.argument then ENOMEM else if o.reading == Some(s.accepted[i]) then 0 else EIO)
            && (s.device == Native ==> o.code == o.answer)
  {
    hide Nearest, RequestsOk, CountsOk, LockOk, ReadersOk, DeviceOk;
    ReachedInv(s);
  }

  /** What the worker writes: the reading as the brightness if there is one, the old brightness
      marked unknown if not, the time, and an error only for a request. */
  lemma WriteShows(s: State, now: nat)
    requires Reached(s) && Can(s, Write(now))
    ensures var t, w := Do(s, Write(now)), s.worker;
            && t.writes == s.writes + [t.cache] && t.cache.sampled == now
            && t.cache.known == w.result.reading.Some?
            && t.cache.percent == (if w.result.reading.Some? then w.result.reading.value else s.cache.percent)
            && (if w.apply then t.published == s.published + [w.result] && t.cache.lastError == w.result.code
                else t.published == s.published && t.cache.lastError == s.cache.lastError)
            && t.pending == s.pending && t.target == s.target
            && (w.apply ==> s.pending && |s.published| < |s.accepted| && w.result.level == s.accepted[|s.published|])
  {
    hide Nearest, Honest, RequestsOk, LockOk, ReadersOk, DeviceOk;
    ReachedInv(s);
  }

  // ---- what calls are answered -----------------------------------------------------------------------------

  function Successes(answers: seq<Answer>): nat {
    if answers == [] then 0 else Successes(answers[..|answers| - 1]) + if answers[|answers| - 1].code == 0 then 1 else 0
  }

  /** The right answer to each call: out of range, no device, busy, or accepted. */
  predicate RightAnswer(device: Device, a: Answer) {
    && (a.code == -22 <==> a.percent > 100)
    && (a.code == -19 <==> a.percent <= 100 && device == NoDevice)
    && (a.percent <= 100 && device != NoDevice ==> a.code == 0 || a.code == -16)
  }

  ghost predicate AnswersOk(s: State) {
    && (forall i | 0 <= i < |s.answers| :: RightAnswer(s.device, s.answers[i]))
    && (forall id | id in s.requesters :: s.requesters[id].percent <= 100 && s.device != NoDevice)
    && Successes(s.answers) == s.granted
  }

  lemma SuccessesSnoc(answers: seq<Answer>, a: Answer)
    ensures Successes(answers + [a]) == Successes(answers) + if a.code == 0 then 1 else 0
  {
    assert (answers + [a])[..|answers|] == answers;
  }

  lemma AnswersStep(s: State, a: Action)
    requires AnswersOk(s) && Can(s, a)
    ensures AnswersOk(Do(s, a))
  {
    hide Nearest, Believed, ResultCode, Successes;
    if IsRequest(a) {
      AnswersRequest(s, a);
    } else if IsRead(a) {
      AnswersKept(s, DoRead(s, a));
    } else {
      AnswersKept(s, DoWork(s, a));
    }
  }

  lemma AnswersKept(s: State, t: State)
    requires AnswersOk(s) && t.device == s.device && t.requesters == s.requesters
    requires t.answers == s.answers && t.granted == s.granted
    ensures AnswersOk(t)
  {
    hide RightAnswer;
  }

  lemma AnswersRequest(s: State, a: Action)
    requires AnswersOk(s) && IsRequest(a) && Can(s, a)
    ensures AnswersOk(DoRequest(s, a))
  {
    hide Nearest, Successes;
    if a.Call? { SuccessesSnoc(s.answers, Answer(a.percent, Precheck(s.device, a.percent))); }
    if a.Return? {
      var r := s.requesters[a.id];
      SuccessesSnoc(s.answers, Answer(r.percent, if r.Accepted? then 0 else EBUSY));
    }
  }

  lemma {:induction false} AnswersRun(s: State, run: seq<Action>)
    requires AnswersOk(s) && Legal(s, run)
    ensures AnswersOk(After(s, run))
    decreases |run|
  {
    hide AnswersOk, Can, Do;
    if run == [] {
    } else {
      AnswersStep(s, run[0]);
      AnswersRun(Do(s, run[0]), run[1..]);
    }
  }

  /** Every call is answered by its own argument and the device, and as many are answered with
      success as requests are accepted, but for one still on its way out. */
  lemma CallsAreAnswered(s: State, i: nat)
    requires Reached(s) && i < |s.answers|
    ensures RightAnswer(s.device, s.answers[i])
    ensures Successes(s.answers) <= |s.accepted| <= Successes(s.answers) + 1
  {
    hide Legal, After, Inv;
    ReachedInv(s);
    var start, run :| Start(start) && Legal(start, run) && After(start, run) == s;
    assert AnswersOk(start);
    AnswersRun(start, run);
    InvGranted(s);
  }

  lemma InvGranted(s: State)
    requires Inv(s)
    ensures s.granted <= |s.accepted| <= s.granted + 1
  {
    hide LockOk, RequestsOk, WorkerOk, ReadersOk, DeviceOk;
  }

  // ---- snapshots ---------------------------------------------------------------------------------------

  /** Cache writes in a run, and those of them that publish a request's outcome. */
  function Writes(run: seq<Action>): nat {
    if run == [] then 0 else (if run[0].Write? then 1 else 0) + Writes(run[1..])
  }

  ghost function Publications(s: State, run: seq<Action>): nat
    requires Legal(s, run)
    decreases |run|
  {
    if run == [] then 0
    else (if run[0].Write? && s.worker.apply then 1 else 0) + Publications(Do(s, run[0]), run[1..])
  }

  lemma CountWrites(s: State, a: Action)
    requires Can(s, a)
    ensures |Do(s, a).writes| == |s.writes| + (if a.Write? then 1 else 0) && s.writes <= Do(s, a).writes
    ensures |Do(s, a).published| == |s.published| + (if a.Write? && s.worker.apply then 1 else 0)
    ensures s.published <= Do(s, a).published
  {
    hide Nearest, Believed, ResultCode, Precheck;
  }

  lemma {:induction false} RunWrites(s: State, run: seq<Action>)
    requires Legal(s, run)
    ensures |After(s, run).writes| == |s.writes| + Writes(run) && s.writes <= After(s, run).writes
    ensures |After(s, run).published| == |s.published| + Publications(s, run) && s.published <= After(s, run).published
    decreases |run|
  {
    hide Can, Do;
    if run == [] {
    } else {
      CountWrites(s, run[0]);
      RunWrites(Do(s, run[0]), run[1..]);
    }
  }

  /** Reader `id` has either not copied yet, or has copied no earlier than this. */
  ghost predicate CopiesAfter(s: State, id: nat, version: nat, seen: nat) {
    && version <= |s.writes| && seen <= |s.published|
    && (id in s.readers && HasCopy(s.readers[id]) ==> version <= s.readers[id].version && seen <= s.readers[id].seen)
  }

  lemma CopiesAfterStep(s: State, a: Action, id: nat, version: nat, seen: nat)
    requires Can(s, a) && CopiesAfter(s, id, version, seen)
    ensures CopiesAfter(Do(s, a), id, version, seen)
  {
    hide Nearest, Believed, ResultCode, Precheck;
  }

  lemma {:induction false} CopiesAfterRun(s: State, run: seq<Action>, id: nat, version: nat, seen: nat)
    requires Legal(s, run) && CopiesAfter(s, id, version, seen)
    ensures CopiesAfter(After(s, run), id, version, seen)
    decreases |run|
  {
    hide Can, Do, CopiesAfter;
    if run == [] {
    } else {
      CopiesAfterStep(s, run[0], id, version, seen);
      CopiesAfterRun(Do(s, run[0]), run[1..], id, version, seen);
    }
  }

  /** A snapshot begun in `s` shows, in every field, the cache as it was then or later, and
      the last outcome published then or later. */
  lemma SnapshotIsRecent(s: State, run: seq<Action>, id: nat)
    requires Reached(s) && id !in s.readers && Legal(s, run)
    requires Can(After(s, run), Sample(id))
    ensures var t := After(s, run); var r := t.readers[id];
            && 1 <= r.version && |s.writes| <= r.version <= |t.writes| && r.copy == t.writes[r.version - 1] && s.writes <= t.writes
            && |s.published| <= r.seen <= |t.published| && s.published <= t.published
            && r.copy.lastError == ErrorAfter(t.published[..r.seen])
  {
    hide Do, Reached, LockOk, RequestsOk, CountsOk, WorkerOk, DeviceOk;
    ReachedInv(s);
    RunKeeps(s, run);
    RunWrites(s, run);
    CopiesAfterRun(s, run, id, |s.writes|, |s.published|);
  }

  /** Nothing but its own last step takes a copy away from its reader. */
  lemma CopyStaysStep(s: State, a: Action, id: nat)
    requires Can(s, a) && a != Sample(id) && id in s.readers && HasCopy(s.readers[id])
    ensures var r, r' := s.readers[id], Do(s, a).readers;
            id in r' && HasCopy(r'[id]) && r'[id].copy == r.copy && r'[id].version == r.version && r'[id].seen == r.seen
  {
    hide Nearest, Believed, ResultCode, Precheck;
  }

  lemma {:induction false} CopyStays(s: State, run: seq<Action>, id: nat)
    requires Legal(s, run) && Sample(id) !in run && id in s.readers && HasCopy(s.readers[id])
    ensures var r, r' := s.readers[id], After(s, run).readers;
            id in r' && HasCopy(r'[id]) && r'[id].copy == r.copy && r'[id].version == r.version && r'[id].seen == r.seen
    decreases |run|
  {
    hide Can, Do, HasCopy;
    if run == [] {
    } else {
      CopyStaysStep(s, run[0], id);
      CopyStays(Do(s, run[0]), run[1..], id);
    }
  }

  /** Between the copy, in `c`, and the look at `pending`: the copy is the worker's latest write
      exactly when it wrote nothing in between, and then equals the cache in every field; the
      copy knows the newest outcome exactly when none was published in between, and then a
      snapshot not marked busy shows its error. A later write may of course repeat the same
      values. */
  lemma QuietSnapshot(c: State, run: seq<Action>, id: nat)
    requires Reached(c) && Can(c, Copy(id)) && Legal(Do(c, Copy(id)), run) && Sample(id) !in run
    requires Can(After(Do(c, Copy(id)), run), Sample(id))
    ensures var t := After(Do(c, Copy(id)), run); var r := t.readers[id];
            && r.copy == c.cache && t.writes != []
            && (r.version == |t.writes| <==> Writes(run) == 0)
            && (Writes(run) == 0 ==> r.copy == t.cache)
            && (!t.pending ==> |t.published| == |t.accepted|)
            && (r.seen == |t.published| <==> Publications(Do(c, Copy(id)), run) == 0)
            && (!t.pending && Publications(Do(c, Copy(id)), run) == 0 && t.accepted != [] ==>
                  r.copy.lastError == t.published[|t.published| - 1].code)
  {
    hide Reached, Inv;
    ReachedInv(c);
    Step(c, Copy(id));
    var d := Do(c, Copy(id));
    JustCopied(c, id);
    hide Do;
    RunKeeps(d, run);
    RunWrites(d, run);
    CopyStays(d, run, id);
    InvCounts(After(d, run));
  }

  lemma JustCopied(c: State, id: nat)
    requires Can(c, Copy(id)) && Inv(c)
    ensures var d := Do(c, Copy(id));
            && id in d.readers && d.readers[id] == Copied(c.cache, |c.writes|, |c.published|)
            && d.writes == c.writes && d.published == c.published
            && c.cache.lastError == ErrorAfter(c.published) && c.writes != [] && c.cache == c.writes[|c.writes| - 1]
  {
  }

  lemma InvCounts(t: State)
    requires Inv(t)
    ensures !t.pending ==> |t.published| == |t.accepted|
    ensures t.writes != [] && t.cache == t.writes[|t.writes| - 1]
  {
  }

  lemma {:induction false} Longer(s: State, run: seq<Action>, a: Action)
    requires Legal(s, run) && Can(After(s, run), a)
    ensures Legal(s, run + [a]) && After(s, run + [a]) == Do(After(s, run), a)
    decreases |run|
  {
    hide Can, Do;
    if run == [] {
      assert (run + [a])[1..] == [] && (run + [a])[0] == a;
    } else {
      Longer(Do(s, run[0]), run[1..], a);
      assert (run + [a])[1..] == run[1..] + [a] && (run + [a])[0] == run[0];
    }
  }

  lemma ReachedStep(s: State, a: Action)
    requires Reached(s) && Can(s, a)
    ensures Reached(Do(s, a))
  {
    hide Can, Do, Start;
    var start, run :| Start(start) && Legal(start, run) && After(start, run) == s;
    Longer(start, run, a);
  }

  lemma ChosenAlone(s: State, id: nat, percent: nat, best: nat) returns (t: State)
    requires Reached(s) && id !in s.requesters && s.lock == None && !s.pending
    requires Precheck(s.device, percent) == 0 && Nearest(s.levels, percent, best)
    ensures Reached(t)
    ensures t == s.(lock := Some(Requesting(id)), requesters := s.requesters[id := Chosen(percent, best)])
  {
    hide Reached, Nearest;
    ReachedStep(s, Call(id, percent));
    t := Do(s, Call(id, percent));
    ReachedStep(t, Lock(id));
    t := Do(t, Lock(id));
    ReachedStep(t, Check(id, best));
    t := Do(t, Check(id, best));
    assert t.requesters == s.requesters[id := Chosen(percent, best)];
  }

  /** One request, undisturbed. */
  lemma RequestAlone(s: State, id: nat, percent: nat, best: nat) returns (t: State)
    requires Reached(s) && id !in s.requesters && s.lock == None && !s.pending
    requires Precheck(s.device, percent) == 0 && Nearest(s.levels, percent, best)
    ensures Reached(t)
    ensures t == s.(pending := true, target := best, requesters := t.requesters, granted := s.granted + 1,
                    answers := s.answers + [Answer(percent, 0)], asked := s.asked + [percent], accepted := s.accepted + [best])
  {
    hide Reached, Nearest;
    t := ChosenAlone(s, id, percent, best);
    ReachedStep(t, StoreTarget(id));
    t := Do(t, StoreTarget(id));
    ReachedStep(t, StorePending(id));
    t := Do(t, StorePending(id));
    ReachedStep(t, Return(id));
    t := Do(t, Return(id));
  }

  lemma CopyingAlone(s: State, id: nat) returns (t: State)
    requires Reached(s) && id !in s.readers && s.lock == None
    ensures Reached(t) && t == s.(readers := s.readers[id := Copying], lock := Some(Reading(id)))
  {
    hide Reached, Nearest, DoRequest, DoWork;
    ReachedStep(s, Open(id));
    t := Do(s, Open(id));
    ReachedStep(t, LockCopy(id));
    t := Do(t, LockCopy(id));
    assert t.readers == s.readers[id := Copying];
  }

  /** A reader takes its copy and has yet to look at `pending`. */
  lemma CopyAlone(s: State, id: nat) returns (t: State)
    requires Reached(s) && id !in s.readers && s.lock == None
    ensures Reached(t) && t == s.(readers := t.readers)
    ensures id in t.readers && t.readers[id] == Leaving(s.cache, |s.writes|, |s.published|)
  {
    hide Reached, Nearest, DoRequest, DoWork;
    t := CopyingAlone(s, id);
    ReachedStep(t, Copy(id));
    t := Do(t, Copy(id));
    ReachedStep(t, UnlockCopy(id));
    t := Do(t, UnlockCopy(id));
  }

  /** What an undisturbed round with these firmware answers comes to. */
  function RoundResult(s: State, argument: bool, answer: int, reading: Option<nat>): Outcome {
    Outcome(s.target, ResultCode(s.device, true, s.target, argument, answer, reading), reading, argument, answer)
  }

  lemma MeasuredAlone(s: State, argument: bool, answer: int, reading: Option<nat>) returns (t: State)
    requires Reached(s) && s.worker == Resting && s.pending && Believed(s, reading)
    ensures Reached(t)
    ensures var o := RoundResult(s, argument, answer, reading);
            t == s.(worker := Measured(true, o), tried := s.tried + [o])
  {
    hide Reached, ResultCode, Nearest;
    ReachedStep(s, LoadPending);
    t := Do(s, LoadPending);
    ReachedStep(t, LoadTarget);
    t := Do(t, LoadTarget);
    ReachedStep(t, Measure(argument, answer, reading));
    t := Do(t, Measure(argument, answer, reading));
  }

  /** One worker round, undisturbed. */
  lemma RoundAlone(s: State, argument: bool, answer: int, reading: Option<nat>) returns (t: State)
    requires Reached(s) && s.lock == None && s.worker == Resting && s.pending && Believed(s, reading)
    ensures Reached(t) && !t.pending && t.readers == s.readers && t.snapshots == s.snapshots
    ensures t.published == s.published + [RoundResult(s, argument, answer, reading)] && t.accepted == s.accepted
  {
    hide Reached, RoundResult, Nearest;
    t := MeasuredAlone(s, argument, answer, reading);
    ReachedStep(t, LockWrite);
    t := Do(t, LockWrite);
    ReachedStep(t, Write(0));
    t := Do(t, Write(0));
    ReachedStep(t, UnlockWrite);
    t := Do(t, UnlockWrite);
    ReachedStep(t, Finish);
    t := Do(t, Finish);
  }

  /** The copy is taken before `pending` is read, so a snapshot can say "not busy, no error"
      about a request that has just failed. */
  lemma StaleSnapshot(start: State) returns (s: State)
    requires Start(start) && start.device == Panel
    ensures Reached(s) && |s.snapshots| == 1 && !s.snapshots[0].busy && s.snapshots[0].copy.lastError == 0
    ensures |s.published| == |s.accepted| == 1 && s.published[0].code == EIO
  {
    assert Legal(start, []) && After(start, []) == start;
    NearestExists(start.levels, 50, |start.levels|);
    var best :| Nearest(start.levels, 50, best);
    s := RequestAlone(start, 0, 50, best);
    s := CopyAlone(s, 0);
    s := RoundAlone(s, true, 0, None);
    ReachedStep(s, Sample(0));
    s := Do(s, Sample(0));
  }

  /** Not read back on the native path: any answer of the set call can be published, zero
      among them, beside any reading. */
  lemma NativeSuccessUnverified(start: State, answer: int, reading: Option<nat>) returns (s: State)
    requires Start(start) && start.device == Native
    ensures Reached(s) && |s.accepted| == 1 && s.published == [Outcome(s.accepted[0], answer, reading, true, answer)]
  {
    assert Legal(start, []) && After(start, []) == start;
    NearestExists(start.levels, 50, |start.levels|);
    var best :| Nearest(start.levels, 50, best);
    s := RequestAlone(start, 0, 50, best);
    s := RoundAlone(s, true, answer, reading);
  }

  /** A request on the panel can succeed: the level accepted is set, read back and published. */
  lemma PanelSucceeds(start: State) returns (s: State)
    requires Start(start) && start.device == Panel
    ensures Reached(s) && !s.pending && |s.accepted| == 1
    ensures s.published == [Outcome(s.accepted[0], 0, Some(s.accepted[0]), true, 0)]
  {
    assert Legal(start, []) && After(start, []) == start;
    NearestExists(start.levels, 50, |start.levels|);
    var best :| Nearest(start.levels, 50, best);
    s := RequestAlone(start, 0, 50, best);
    s := RoundAlone(s, true, 0, Some(best));
  }

  // ---- progress -----------------------------------------------------------------------------------------

  /** The steps between lock and unlock belong to whoever took the lock. */
  predicate Owns(o: Owner, a: Action) {
    match o
    case Working => a.Write? || a.UnlockWrite?
    case Reading(id) => a == Copy(id) || a == UnlockCopy(id)
    case Requesting(id) => (a.Check? && a.id == id) || a == StoreTarget(id) || a == StorePending(id) || a == Return(id)
  }

  /** The lock's owner always has a step of its own to take. */
  lemma OwnerMoves(s: State)
    requires Reached(s) && s.lock.Some?
    ensures exists a :: Owns(s.lock.value, a) && Can(s, a)
  {
    hide Reached, Nearest, RequestsOk, CountsOk, WorkerOk, ReadersOk;
    ReachedInv(s);
    match s.lock.value {
      case Working =>
        var a := if s.worker.Writing? then Write(0) else UnlockWrite;
        assert Owns(s.lock.value, a) && Can(s, a);
      case Reading(id) =>
        var a := if s.readers[id].Copying? then Copy(id) else UnlockCopy(id);
        assert Owns(s.lock.value, a) && Can(s, a);
      case Requesting(id) =>
        var r := s.requesters[id];
        if r.Checking? {
          NearestExists(s.levels, r.percent, |s.levels|);
          var best :| Nearest(s.levels, r.percent, best);
          assert Owns(s.lock.value, Check(id, best)) && Can(s, Check(id, best));
        } else {
          var a := if r.Chosen? then StoreTarget(id) else if r.Stored? then StorePending(id) else Return(id);
          assert Owns(s.lock.value, a) && Can(s, a);
        }
    }
  }

  /** The worker itself waits for nothing but the lock. */
  lemma WorkerMoves(s: State)
    requires !(s.worker.Measured? && s.lock.Some?)
    ensures exists a :: IsWorker(a) && Can(s, a)
  {
    var a := match s.worker
             case Resting => LoadPending
             case GotPending(_) => LoadTarget
             case GotTarget(_, _) => Measure(true, 0, None)
             case Measured(_, _) => LockWrite
             case Writing(_, _) => Write(0)
             case Written(_) => UnlockWrite
             case Unlocked(_) => Finish;
    assert IsWorker(a) && Can(s, a);
  }

  /** Steps of its own the lock's owner has left before it lets go. */
  ghost function Holding(s: State): nat
    requires LockOk(s) && s.lock.Some?
  {
    match s.lock.value
    case Working => if s.worker.Writing? then 2 else 1
    case Reading(id) => if s.readers[id].Copying? then 2 else 1
    case Requesting(id) =>
      match s.requesters[id]
      case Checking(_) => 4
      case Chosen(_, _) => 3
      case Stored(_, _) => 2
      case _ => 1
  }

  /** Others leave lock and owner alone; the owner's own steps bring it closer to the end. */
  lemma HoldingStep(s: State, a: Action)
    requires LockOk(s) && s.lock.Some? && Can(s, a)
    ensures LockOk(Do(s, a)) && (s.worker.Measured? ==> Do(s, a).worker == s.worker)
    ensures !Owns(s.lock.value, a) ==> Do(s, a).lock == s.lock && Holding(Do(s, a)) == Holding(s)
    ensures Owns(s.lock.value, a) ==>
              Do(s, a).lock == None || (Do(s, a).lock == s.lock && Holding(Do(s, a)) < Holding(s))
  {
    hide Nearest, Believed, ResultCode, Precheck, RequestsOk;
    if IsWorker(a) {
      HoldingWork(s, a);
    } else if IsRead(a) {
      HoldingRead(s, a);
    } else {
      HoldingRequest(s, a);
    }
  }

  lemma HoldingWork(s: State, a: Action)
    requires LockOk(s) && s.lock.Some? && Can(s, a) && IsWorker(a)
    ensures LockOk(DoWork(s, a)) && (s.worker.Measured? ==> DoWork(s, a).worker == s.worker)
    ensures !Owns(s.lock.value, a) ==> DoWork(s, a).lock == s.lock && Holding(DoWork(s, a)) == Holding(s)
    ensures Owns(s.lock.value, a) ==>
              DoWork(s, a).lock == None || (DoWork(s, a).lock == s.lock && Holding(DoWork(s, a)) < Holding(s))
  {
    hide Nearest, Believed, ResultCode;
  }

  lemma HoldingRead(s: State, a: Action)
    requires LockOk(s) && s.lock.Some? && Can(s, a) && IsRead(a)
    ensures LockOk(DoRead(s, a)) && DoRead(s, a).worker == s.worker
    ensures !Owns(s.lock.value, a) ==> DoRead(s, a).lock == s.lock && Holding(DoRead(s, a)) == Holding(s)
    ensures Owns(s.lock.value, a) ==>
              DoRead(s, a).lock == None || (DoRead(s, a).lock == s.lock && Holding(DoRead(s, a)) < Holding(s))
  {
    ReadKeepsLock(s, a);
  }

  lemma HoldingRequest(s: State, a: Action)
    requires LockOk(s) && s.lock.Some? && Can(s, a) && IsRequest(a)
    ensures LockOk(DoRequest(s, a)) && DoRequest(s, a).worker == s.worker
    ensures !Owns(s.lock.value, a) ==> DoRequest(s, a).lock == s.lock && Holding(DoRequest(s, a)) == Holding(s)
    ensures Owns(s.lock.value, a) ==>
              DoRequest(s, a).lock == None || (DoRequest(s, a).lock == s.lock && Holding(DoRequest(s, a)) < Holding(s))
  {
    hide Nearest, Precheck;
  }

  function OwnSteps(o: Owner, run: seq<Action>): nat {
    if run == [] then 0 else (if Owns(o, run[0]) then 1 else 0) + OwnSteps(o, run[1..])
  }

  /** After `k` steps the lock is free, and a worker that waited for it can take it. */
  ghost predicate FreedAt(s: State, run: seq<Action>, k: nat) {
    && k <= |run| && Legal(s, run[..k]) && After(s, run[..k]).lock == None
    && (s.worker.Measured? ==> Can(After(s, run[..k]), LockWrite))
  }

  lemma {:induction false} FreedWithin(s: State, run: seq<Action>) returns (k: nat)
    requires LockOk(s) && s.lock.Some? && Legal(s, run) && OwnSteps(s.lock.value, run) >= Holding(s)
    ensures FreedAt(s, run, k)
    decreases |run|
  {
    hide Do, Owns, Holding, LockOk, Can;
    HoldingPositive(s);
    HoldingStep(s, run[0]);
    var t := Do(s, run[0]);
    if t.lock == None {
      k := 1;
      var r := run[..1];
      assert r[1..] == [] && r[0] == run[0] && Legal(t, r[1..]) && After(t, r[1..]) == t;
      assert Legal(s, r) && After(s, r) == t;
      Unlocks(t, s.worker);
    } else {
      k := FreedWithin(t, run[1..]);
      k := k + 1;
      assert run[..k][1..] == run[1..][..k - 1] && run[..k][0] == run[0];
      TurnKept(s, t, run, k);
    }
  }

  lemma Unlocks(t: State, w: Worker)
    requires t.lock == None
    ensures w.Measured? && t.worker == w ==> Can(t, LockWrite)
  {
  }

  lemma TurnKept(s: State, t: State, run: seq<Action>, k: nat)
    requires 0 < k <= |run| && Can(s, run[0]) && t == Do(s, run[0]) && run[..k][1..] == run[1..][..k - 1]
    requires run[..k][0] == run[0] && FreedAt(t, run[1..], k - 1) && (s.worker.Measured? ==> t.worker == s.worker)
    ensures FreedAt(s, run, k)
  {
    hide Can, Do;
    var r := run[..k];
    assert r != [] && Legal(t, r[1..]);
    assert Legal(s, r) && After(s, r) == After(t, r[1..]);
  }

  lemma HoldingPositive(s: State)
    requires LockOk(s) && s.lock.Some?
    ensures 1 <= Holding(s) <= 4
  {
  }

  /** Whoever holds the lock, four steps of its own release it, however the others
      interleave; a worker waiting to publish is then free to go on. */
  lemma LockIsReleased(s: State, run: seq<Action>) returns (k: nat)
    requires Reached(s) && s.lock.Some? && Legal(s, run) && OwnSteps(s.lock.value, run) >= 4
    ensures FreedAt(s, run, k)
  {
    hide Reached, RequestsOk, CountsOk, WorkerOk, ReadersOk, DeviceOk, LockOk, Holding, FreedAt, Legal;
    ReachedInv(s);
    HoldingPositive(s);
    k := FreedWithin(s, run);
  }

  /** Worker steps still needed before the pending request is finished. */
  function Remaining(w: Worker): nat {
    match w
    case Resting => 7
    case GotPending(apply) => 6 + (if apply then 0 else 7)
    case GotTarget(apply, _) => 5 + (if apply then 0 else 7)
    case Measured(apply, _) => 4 + (if apply then 0 else 7)
    case Writing(apply, _) => 3 + (if apply then 0 else 7)
    case Written(apply) => 2 + (if apply then 0 else 7)
    case Unlocked(apply) => 1 + (if apply then 0 else 7)
  }

  lemma Progress(s: State, a: Action)
    requires Inv(s) && Can(s, a) && s.pending
    ensures !IsWorker(a) ==> Do(s, a).worker == s.worker && Do(s, a).pending && Do(s, a).completed == s.completed
    ensures IsWorker(a) ==> Do(s, a).completed == s.completed + 1
                            || (Do(s, a).pending && Do(s, a).completed == s.completed
                                && Remaining(Do(s, a).worker) < Remaining(s.worker))
  {
    hide RequestsOk, ReadersOk, DeviceOk, DoWork, DoRead, DoRequest, Can, LockOk, CountsOk, WorkerOk;
    if IsWorker(a) {
      WorkerProgress(s, a);
    } else if IsRead(a) {
      ReadWaits(s, a);
    } else {
      RequestWaits(s, a);
    }
  }

  lemma WorkerProgress(s: State, a: Action)
    requires WorkerOk(s) && IsWorker(a) && Can(s, a) && s.pending
    ensures var t := DoWork(s, a);
            || t.completed == s.completed + 1
            || (t.pending && t.completed == s.completed && Remaining(t.worker) < Remaining(s.worker))
  {
  }

  lemma ReadWaits(s: State, a: Action)
    requires IsRead(a) && Can(s, a)
    ensures var t := DoRead(s, a); t.worker == s.worker && t.pending == s.pending && t.completed == s.completed
  {
  }

  lemma RequestWaits(s: State, a: Action)
    requires IsRequest(a) && Can(s, a) && s.pending
    ensures var t := DoRequest(s, a); t.worker == s.worker && t.pending && t.completed == s.completed
  {
  }

  function WorkerSteps(run: seq<Action>): nat {
    if run == [] then 0 else (if IsWorker(run[0]) then 1 else 0) + WorkerSteps(run[1..])
  }

  lemma {:induction false} CompletedGrows(s: State, run: seq<Action>)
    requires Legal(s, run)
    ensures After(s, run).completed >= s.completed
    decreases |run|
  {
    if run == [] {
    } else {
      CompletedGrows(Do(s, run[0]), run[1..]);
    }
  }

  lemma {:induction false} ServedWithin(s: State, run: seq<Action>)
    requires Inv(s) && s.pending && Legal(s, run) && WorkerSteps(run) >= Remaining(s.worker)
    ensures After(s, run).completed > s.completed
    decreases |run|
  {
    hide Inv, Do, Can, IsWorker, Remaining;
    RemainingPositive(s.worker);
    Step(s, run[0]);
    Progress(s, run[0]);
    var t := Do(s, run[0]);
    if t.completed > s.completed {
      CompletedGrows(t, run[1..]);
    } else {
      ServedWithin(t, run[1..]);
    }
  }

  lemma RemainingPositive(w: Worker)
    ensures 1 <= Remaining(w) <= 13
  {
  }

  /** However requesters and readers interleave, thirteen worker steps finish a pending request. */
  lemma PendingIsServed(s: State, run: seq<Action>)
    requires Reached(s) && s.pending && Legal(s, run) && WorkerSteps(run) >= 13
    ensures After(s, run).completed > s.completed
  {
    ReachedInv(s);
    ServedWithin(s, run);
  }
}
