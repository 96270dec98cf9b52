/**
 Who owns the daemon lock: `acquire`, `inspect_owner` with `query_owner`, `inspect_released_record`
 and `classify_owner_observation`, over any number of processes that may die at any step. The
 bootstrap `flock` is exclusive for an acquirer and shared for an inspector; the POSIX record lock
 marks the owner. A process that closes the file, or dies, loses the record lock first.
 */
module DaemonOwnership {
  import opened Optional
  import opened LockRecord

  type Proc = int      // one process instance; pids may be used again, instances are not
  type Watcher = int   // one inspection in progress

  datatype Stage =
    | Outside
    | Bootstrap              // exclusive flock held
    | OwnerLocked            // record lock held as well
    | Writing(written: nat)  // truncated and being written
    | Published              // the whole record is there, flock still held
    | Holding                // flock released: `acquire` has returned the descriptor
    | Closing                // record lock gone, flock not yet

  datatype Process = Process(pid: int, start: string, alive: bool, stage: Stage, identity: Identity)

  datatype OwnerStatus = Held(identity: Identity) | Released | Transition | Invalid

  /** What an inspector has gathered so far, holding the shared flock. */
  datatype Watch =
    | Started
    | Sampled(owner1: Option<int>)
    | Looked(owner1: Option<int>, record1: Option<string>)
    | Checked(owner1: Option<int>, record1: Option<string>, live: Option<string>)
    | Resampled(owner1: Option<int>, record1: Option<string>, live: Option<string>,
                owner2: Option<int>, holder: Option<Proc>)

  datatype State = State(
    platform: Platform,
    procs: map<Proc, Process>,
    file: Option<string>,
    exclusive: Option<Proc>,
    owner: Option<Proc>,
    watchers: map<Watcher, Watch>)

  datatype Action =
    | Spawn(p: Proc, pid: int, start: string)
    | LockBootstrap(p: Proc)
    | LockOwner(p: Proc, token: string)
    | Truncate(p: Proc)
    | WriteMore(p: Proc, written: nat)
    | Unlock(p: Proc)
    | CloseOwner(p: Proc)       // an error path, or the start of dying
    | CloseFlock(p: Proc, dies: bool)
    | Inspect(w: Watcher)
    | Sample(w: Watcher)
    | Look(w: Watcher, fails: bool)
    | CheckLive(w: Watcher, fails: bool)
    | Resample(w: Watcher)
    | Finish(w: Watcher, fails: bool)

  function OwnerPid(s: State): Option<int> {
    if s.owner.Some? && s.owner.value in s.procs then Some(s.procs[s.owner.value].pid) else None
  }

  /** `read_record`: the bytes, when they can be read and have an acceptable size. */
  function ReadRecord(s: State, fails: bool): Option<string> {
    if fails || s.file.None? || |s.file.value| == 0 || |s.file.value| > MAX_RECORD_BYTES then None else s.file
  }

  /** `process_start_token` of whatever process has this pid now. */
  ghost function LiveStartOf(s: State, pid: int, fails: bool): Option<string> {
    if !fails && (exists p :: p in s.procs && s.procs[p].alive && s.procs[p].pid == pid) then
      var p :| p in s.procs && s.procs[p].alive && s.procs[p].pid == pid;
      Some(s.procs[p].start)
    else None
  }

  function Parsed(platform: Platform, record: Option<string>): Option<Identity> {
    if record.None? then None else ParseRecord(platform, record.value)
  }

  datatype Observation = Stable | Unstable | Unusable

  /** `classify_owner_observation`. */
  function Classify(owner1: int, owner2: Option<int>, record1: Option<string>, record2: Option<string>,
                    parsed: Option<Identity>, live: Option<string>): Observation {
    if owner2 != Some(owner1) || record1 != record2 then Unstable
    else if owner1 < 1 || record1.None? || parsed.None? || live.None? then Unusable
    else if parsed.value.pid != owner1 then Unusable
    else if parsed.value.processStart != live.value then Unusable
    else Stable
  }

  /** An owner is stable if both samples agree, and then usable if record and live process are its own. */
  lemma ClassifyIs(owner1: int, owner2: Option<int>, record1: Option<string>, record2: Option<string>,
      parsed: Option<Identity>, live: Option<string>)
    ensures var seen := Classify(owner1, owner2, record1, record2, parsed, live);
            && (seen.Unstable? <==> owner2 != Some(owner1) || record1 != record2)
            && (seen.Stable? <==>
                  && owner2 == Some(owner1) && owner1 >= 1 && record1 == record2 && record1.Some?
                  && parsed.Some? && parsed.value.pid == owner1 && live == Some(parsed.value.processStart))
  {
  }

  /** `query_owner` and `inspect_released_record`, once everything has been sampled. */
  function Conclude(platform: Platform, owner1: Option<int>, record1: Option<string>, live: Option<string>,
                    owner2: Option<int>, record2: Option<string>): OwnerStatus {
    var parsed := Parsed(platform, record1);
    match owner1
    case None =>
      if owner2.Some? || record1 != record2 then Transition
      else if parsed.None? then Invalid
      else Released
    case Some(pid) =>
      match Classify(pid, owner2, record1, record2, parsed, live)
      case Unstable => Transition
      case Unusable => Invalid
      case Stable => Held(parsed.value)
  }

  // ---------------------------------------------------------------- steps

  predicate At(s: State, p: Proc, stage: Stage) {
    p in s.procs && s.procs[p].alive && s.procs[p].stage == stage
  }

  ghost predicate Allowed(s: State, a: Action) {
    match a
    case Spawn(p, pid, start) =>
      && p !in s.procs && 1 <= pid <= MAX_PID && ParseProcessStart(s.platform, start)
      && forall q :: q in s.procs && s.procs[q].alive ==> s.procs[q].pid != pid
    case LockBootstrap(p) => At(s, p, Outside) && s.exclusive.None? && s.watchers == map[]
    case LockOwner(p, token) => At(s, p, Bootstrap) && s.owner.None? && ValidToken(token)
    case Truncate(p) => At(s, p, OwnerLocked)
    case WriteMore(p, written) =>
      && p in s.procs && s.procs[p].alive && s.procs[p].stage.Writing? && s.procs[p].identity.pid >= 0
      && s.procs[p].stage.written < written <= |Format(s.procs[p].identity)|
    case Unlock(p) => At(s, p, Published)
    case CloseOwner(p) => p in s.procs && s.procs[p].alive && !s.procs[p].stage.Closing?
    case CloseFlock(p, dies) => At(s, p, Closing)
    case Inspect(w) => w !in s.watchers && s.exclusive.None? && s.file.Some?
    case Sample(w) => w in s.watchers && s.watchers[w].Started?
    case Look(w, fails) => w in s.watchers && s.watchers[w].Sampled?
    case CheckLive(w, fails) => w in s.watchers && s.watchers[w].Looked?
    case Resample(w) => w in s.watchers && s.watchers[w].Checked?
    case Finish(w, fails) => w in s.watchers && s.watchers[w].Resampled?
  }

  function SetStage(s: State, p: Proc, stage: Stage): State
    requires p in s.procs
  {
    s.(procs := s.procs[p := s.procs[p].(stage := stage)])
  }

  function SetWatch(s: State, w: Watcher, watch: Watch): State {
    s.(watchers := s.watchers[w := watch])
  }

  ghost function Apply(s: State, a: Action): State
    requires Allowed(s, a)
  {
    match a
    case Spawn(p, pid, start) =>
      s.(procs := s.procs[p := Process(pid, start, true, Outside, Identity(0, "", ""))])
    case LockBootstrap(p) =>
      SetStage(s, p, Bootstrap).(exclusive := Some(p), file := if s.file.None? then Some("") else s.file)
    case LockOwner(p, token) =>
      var process := s.procs[p];
      s.(owner := Some(p),
         procs := s.procs[p := process.(stage := OwnerLocked, identity := Identity(process.pid, process.start, token))])
    case Truncate(p) => SetStage(s, p, Writing(0)).(file := Some(""))
    case WriteMore(p, written) =>
      var record := Format(s.procs[p].identity);
      if written == |record| then SetStage(s, p, Published).(file := Some(record))
      else SetStage(s, p, Writing(written)).(file := Some(record[..written]))
    case Unlock(p) => SetStage(s, p, Holding).(exclusive := None)
    case CloseOwner(p) => SetStage(s, p, Closing).(owner := if s.owner == Some(p) then None else s.owner)
    case CloseFlock(p, dies) =>
      s.(exclusive := if s.exclusive == Some(p) then None else s.exclusive,
         procs := s.procs[p := s.procs[p].(stage := Outside, alive := !dies)])
    case Inspect(w) => SetWatch(s, w, Started)
    case Sample(w) => SetWatch(s, w, Sampled(OwnerPid(s)))
    case Look(w, fails) => SetWatch(s, w, Looked(s.watchers[w].owner1, ReadRecord(s, fails)))
    case CheckLive(w, fails) =>
      var watch := s.watchers[w];
      var parsed := Parsed(s.platform, watch.record1);
      var matches := parsed.Some? && Some(parsed.value.pid) == watch.owner1;
      var live := if matches then LiveStartOf(s, parsed.value.pid, fails) else None;
      SetWatch(s, w, Checked(watch.owner1, watch.record1, live))
    case Resample(w) =>
      var watch := s.watchers[w];
      SetWatch(s, w, Resampled(watch.owner1, watch.record1, watch.live, OwnerPid(s), s.owner))
    case Finish(w, fails) => s.(watchers := s.watchers - {w})
  }

  /** What the inspection that ends with this step reports. */
  function Verdict(s: State, w: Watcher, fails: bool): OwnerStatus
    requires w in s.watchers && s.watchers[w].Resampled?
  {
    var watch := s.watchers[w];
    Conclude(s.platform, watch.owner1, watch.record1, watch.live, watch.owner2, ReadRecord(s, fails))
  }

  ghost predicate IsRun(run: seq<State>, actions: seq<Action>) {
    && |run| == |actions| + 1
    && run[0] == State(run[0].platform, map[], run[0].file, None, None, map[])
    && forall i :: 0 <= i < |actions| ==> Allowed(run[i], actions[i]) && run[i + 1] == Apply(run[i], actions[i])
  }

  // ---------------------------------------------------------------- the invariant

  predicate HoldsFlock(stage: Stage) {
    stage.Bootstrap? || stage.OwnerLocked? || stage.Writing? || stage.Published?
  }

  predicate HoldsOwner(stage: Stage) {
    stage.OwnerLocked? || stage.Writing? || stage.Published? || stage.Holding?
  }

  ghost predicate ProcessOk(s: State, p: Proc)
    requires p in s.procs
  {
    var process := s.procs[p];
    && (process.stage.Outside? || process.alive)
    && (HoldsFlock(process.stage) ==> s.exclusive == Some(p))
    && (s.exclusive == Some(p) ==> HoldsFlock(process.stage) || process.stage.Closing?)
    && (HoldsOwner(process.stage) <==> s.owner == Some(p))
    && 1 <= process.pid <= MAX_PID && ParseProcessStart(s.platform, process.start)
    && (HoldsOwner(process.stage) ==>
          && ValidIdentity(s.platform, process.identity)
          && process.identity.pid == process.pid && process.identity.processStart == process.start)
    && (process.stage.Writing? ==>
          process.stage.written < |Format(process.identity)|
              && s.file == Some(Format(process.identity)[..process.stage.written]))
    && (process.stage.Published? || process.stage.Holding? ==> s.file == Some(Format(process.identity)))
  }

  ghost predicate WatchOk(s: State, w: Watcher)
    requires w in s.watchers
  {
    && s.exclusive.None?
    && (match s.watchers[w]
        case Looked(_, record1) => record1.Some? ==> s.file == record1
        case Checked(_, record1, _) => record1.Some? ==> s.file == record1
        case Resampled(_, record1, _, owner2, holder) =>
          && (record1.Some? ==> s.file == record1)
          && (holder.None? ==> owner2.None?)
          && (holder.Some? ==>
                && holder.value in s.procs && owner2 == Some(s.procs[holder.value].pid)
                && ValidIdentity(s.platform, s.procs[holder.value].identity)
                && s.file == Some(Format(s.procs[holder.value].identity)))
        case _ => true)
  }

  ghost predicate Inv(s: State) {
    && (s.exclusive.Some? ==> s.exclusive.value in s.procs)
    && (s.owner.Some? ==> s.owner.value in s.procs)
    && (forall p :: p in s.procs ==> ProcessOk(s, p))
    && (forall w :: w in s.watchers ==> WatchOk(s, w))
  }

  lemma FormatIsNotEmpty(id: Identity)
    requires id.pid >= 0
    ensures Format(id) != ""
  {
  }

  /** A step that touches the file, or an identity, is the step of the one process with the flock. */
  lemma WriterHasFlock(s: State, a: Action)
    requires Inv(s) && Allowed(s, a) && (a.LockOwner? || a.Truncate? || a.WriteMore? || a.Unlock?)
    ensures s.exclusive == Some(a.p) && a.p in s.procs && ProcessOk(s, a.p)
    ensures !a.LockOwner? ==> s.owner == Some(a.p) && Format(s.procs[a.p].identity) != ""
  {
    hide ParseProcessStart, ValidToken, Format, WatchOk, LiveStartOf;
    assert ProcessOk(s, a.p);
    if !a.LockOwner? { FormatIsNotEmpty(s.procs[a.p].identity); }
  }

  lemma KeepsProcess(s: State, a: Action, p: Proc)
    requires Inv(s) && Allowed(s, a) && p in Apply(s, a).procs
    ensures ProcessOk(Apply(s, a), p)
  {
    hide ParseProcessStart, ValidToken, Format, WatchOk, LiveStartOf, Parsed, ReadRecord;
    if p in s.procs { assert ProcessOk(s, p); }
    if a.LockOwner? || a.Truncate? || a.WriteMore? || a.Unlock? { WriterHasFlock(s, a); }
  }

  /** While anyone inspects, nobody is in the middle of publishing. */
  lemma OwnerIsPublished(s: State)
    requires Inv(s) && s.exclusive.None? && s.owner.Some?
    ensures var owner := s.procs[s.owner.value];
            owner.stage.Holding? && ValidIdentity(s.platform, owner.identity) && s.file == Some(Format(owner.identity))
            && OwnerPid(s) == Some(owner.pid)
  {
    hide ParseProcessStart, ValidToken, Format, WatchOk;
    assert ProcessOk(s, s.owner.value);
  }

  lemma KeepsWatch(s: State, a: Action, w: Watcher)
    requires Inv(s) && Allowed(s, a) && w in Apply(s, a).watchers
    ensures WatchOk(Apply(s, a), w)
  {
    hide ParseProcessStart, ValidToken, Format, ProcessOk, LiveStartOf, Parsed, ValidIdentity;
    if a.LockOwner? || a.Truncate? || a.WriteMore? || a.Unlock? { WriterHasFlock(s, a); }
    if w in s.watchers {
      assert WatchOk(s, w);
      if s.owner.Some? { OwnerIsPublished(s); }
    }
  }

  lemma KeepsInv(s: State, a: Action)
    requires Inv(s) && Allowed(s, a)
    ensures Inv(Apply(s, a))
  {
    hide ProcessOk, WatchOk, LiveStartOf, Format, Parsed, ParseProcessStart;
    var after := Apply(s, a);
    forall p | p in after.procs ensures ProcessOk(after, p) { KeepsProcess(s, a, p); }
    forall w | w in after.watchers ensures WatchOk(after, w) { KeepsWatch(s, a, w); }
  }

  lemma {:induction false} InvAlways(run: seq<State>, actions: seq<Action>, i: nat)
    requires IsRun(run, actions) && i < |run|
    ensures Inv(run[i])
  {
    hide Allowed, Apply;
    if i > 0 {
      InvAlways(run, actions, i - 1);
      KeepsInv(run[i - 1], actions[i - 1]);
    }
  }

  // ---------------------------------------------------------------- the results

  /** At most one process has acquired the lock at a time, and its record is in the file, whole. */
  lemma SingleOwner(run: seq<State>, actions: seq<Action>, i: nat, p: Proc, q: Proc)
    requires IsRun(run, actions) && i < |run|
    requires At(run[i], p, Holding) && At(run[i], q, Holding)
    ensures p == q && run[i].owner == Some(p)
    ensures Parsed(run[i].platform, run[i].file) == Some(run[i].procs[p].identity)
  {
    hide ParseProcessStart, ValidToken, WatchOk, Allowed, Apply;
    InvAlways(run, actions, i);
    assert ProcessOk(run[i], p) && ProcessOk(run[i], q);
    FormatThenParse(run[i].platform, run[i].procs[p].identity);
  }

  /** The steps of one inspection. */
  predicate Watches(a: Action, w: Watcher) {
    (a.Inspect? || a.Sample? || a.Look? || a.CheckLive? || a.Resample? || a.Finish?) && a.w == w
  }

  lemma {:induction false} WatchUnchanged(run: seq<State>, actions: seq<Action>, k: nat, i: nat, w: Watcher)
    requires IsRun(run, actions) && k <= i < |run|
    requires forall m :: k <= m < i ==> !Watches(actions[m], w)
    ensures (w in run[i].watchers <==> w in run[k].watchers)
    ensures w in run[k].watchers ==> run[i].watchers[w] == run[k].watchers[w]
    ensures run[i].platform == run[k].platform
    decreases i - k
  {
    hide Allowed, LiveStartOf, Format, ParseProcessStart;
    if k < i {
      WatchUnchanged(run, actions, k, i - 1, w);
      assert !Watches(actions[i - 1], w);
      assert run[i] == Apply(run[i - 1], actions[i - 1]);
    }
  }

  /**
   An inspection that takes its second sample at step `k` and ends at step `i`: it reports an owner
   only with the complete identity that the process holding the lock at that sample had published
   when it acquired it, and reports the lock released only if nobody held it then.
   */
  lemma InspectionIsSound(run: seq<State>, actions: seq<Action>, k: nat, i: nat, w: Watcher, fails: bool)
    requires IsRun(run, actions) && k < i < |actions|
    requires actions[k] == Resample(w) && actions[i] == Finish(w, fails)
    requires forall m :: k < m < i ==> !Watches(actions[m], w)
    ensures w in run[i].watchers && run[i].watchers[w].Resampled?
    ensures var verdict := Verdict(run[i], w, fails);
            && (verdict.Held? ==>
                  && run[k].owner.Some? && At(run[k], run[k].owner.value, Holding)
                  && run[k].procs[run[k].owner.value].identity == verdict.identity)
            && (verdict.Released? ==> run[k].owner.None?)
  {
    hide ParseProcessStart, ValidToken, Format, ProcessOk, LiveStartOf, ParseRecord, ValidIdentity;
    InvAlways(run, actions, k);
    var s := run[k];
    assert Allowed(s, actions[k]) && Allowed(run[i], actions[i]) && run[k + 1] == Apply(s, actions[k]);
    assert WatchOk(s, w);
    WatchUnchanged(run, actions, k + 1, i, w);
    if s.owner.Some? {
      OwnerIsPublished(s);
      OwnerAlive(s);
      FormatThenParse(s.platform, s.procs[s.owner.value].identity);
    }
  }

  lemma OwnerAlive(s: State)
    requires Inv(s) && s.owner.Some?
    ensures s.procs[s.owner.value].alive
  {
    assert ProcessOk(s, s.owner.value);
  }

  /** No two live processes have one pid. */
  ghost predicate LivePidsUnique(s: State) {
    forall p, q :: p in s.procs && q in s.procs && s.procs[p].alive && s.procs[q].alive && p != q ==>
                     s.procs[p].pid != s.procs[q].pid
  }

  lemma {:induction false} LivePidsAlwaysUnique(run: seq<State>, actions: seq<Action>, i: nat)
    requires IsRun(run, actions) && i < |run|
    ensures LivePidsUnique(run[i])
  {
    if i > 0 {
      LivePidsAlwaysUnique(run, actions, i - 1);
      KeepsLivePids(run[i - 1], actions[i - 1]);
    }
  }

  lemma KeepsLivePids(s: State, a: Action)
    requires LivePidsUnique(s) && Allowed(s, a)
    ensures LivePidsUnique(Apply(s, a))
  {
    hide ParseProcessStart, ValidToken, Format, LiveStartOf, Parsed, ReadRecord;
  }

  /** So looking up a live process by its pid finds that process. */
  lemma LookupFinds(s: State, p: Proc)
    requires LivePidsUnique(s) && p in s.procs && s.procs[p].alive
    ensures LiveStartOf(s, s.procs[p].pid, false) == Some(s.procs[p].start)
  {
  }

  /** What an inspector sees of an owner. */
  ghost predicate Shows(s: State, p: Proc, process: Process) {
    && s.owner == Some(p) && p in s.procs && s.procs[p].alive && LooksLike(s.procs[p], process)
    && process.identity.pid == process.pid >= 1 && process.identity.processStart == process.start
    && OwnerPid(s) == Some(process.pid) && ReadRecord(s, false) == Some(Format(process.identity))
    && Parsed(s.platform, Some(Format(process.identity))) == Some(process.identity)
    && LiveStartOf(s, process.pid, false) == Some(process.start)
  }

  lemma OwnerShows(s: State, p: Proc)
    requires Inv(s) && LivePidsUnique(s) && s.exclusive.None? && s.owner == Some(p)
    ensures Shows(s, p, s.procs[p])
  {
    hide ParseProcessStart, ValidToken, Format, WatchOk, ParseRecord, LiveStartOf;
    OwnerIsPublished(s);
    assert ProcessOk(s, p);
    LookupFinds(s, p);
    FormatThenParse(s.platform, s.procs[p].identity);
    RecordFits(s.platform, s.procs[p].identity);
    FormatIsNotEmpty(s.procs[p].identity);
  }

  /** While it owns the lock and someone inspects, a process and its record do not change. */
  lemma OwnerStaysPut(s: State, a: Action, w: Watcher, p: Proc)
    requires Inv(s) && Allowed(s, a) && w in s.watchers && s.owner == Some(p) && Apply(s, a).owner == Some(p)
    ensures p in Apply(s, a).procs && Apply(s, a).procs[p].pid == s.procs[p].pid
    ensures Apply(s, a).procs[p].start == s.procs[p].start && Apply(s, a).procs[p].identity == s.procs[p].identity
    ensures Apply(s, a).platform == s.platform
  {
    hide ParseProcessStart, ValidToken, Format, LiveStartOf, Parsed, ReadRecord;
    assert WatchOk(s, w) && ProcessOk(s, p);
    if a.LockOwner? { WriterHasFlock(s, a); }
  }

  /** Between two moments of an inspection by `w`, with `p` the owner throughout. */
  ghost predicate Throughout(run: seq<State>, first: nat, last: nat, w: Watcher, p: Proc) {
    first <= last < |run| && forall i :: first <= i <= last ==> w in run[i].watchers && run[i].owner == Some(p)
  }

  predicate LooksLike(x: Process, y: Process) {
    x.pid == y.pid && x.start == y.start && x.identity == y.identity
  }

  lemma ShowsSame(s: State, p: Proc, x: Process, y: Process)
    requires Shows(s, p, x)
    ensures LooksLike(s.procs[p], x) && (LooksLike(x, y) ==> Shows(s, p, y))
  {
  }

  lemma RunStep(run: seq<State>, actions: seq<Action>, i: nat)
    requires IsRun(run, actions) && i < |actions|
    ensures i + 1 < |run| && Allowed(run[i], actions[i]) && run[i + 1] == Apply(run[i], actions[i])
  {
    hide Allowed, Apply;
  }

  lemma OwnerShowsNow(run: seq<State>, actions: seq<Action>, i: nat, w: Watcher, p: Proc)
    requires IsRun(run, actions) && i < |run| && w in run[i].watchers && run[i].owner == Some(p)
    ensures p in run[i].procs && Shows(run[i], p, run[i].procs[p])
  {
    hide Allowed, Apply, IsRun, Shows, LivePidsUnique;
    InvAlways(run, actions, i);
    LivePidsAlwaysUnique(run, actions, i);
    assert WatchOk(run[i], w);
    OwnerShows(run[i], p);
  }

  lemma OwnerStaysPutAt(run: seq<State>, actions: seq<Action>, i: nat, w: Watcher, p: Proc)
    requires IsRun(run, actions) && i + 1 < |run| && w in run[i].watchers
    requires run[i].owner == Some(p) && run[i + 1].owner == Some(p)
    ensures p in run[i].procs && p in run[i + 1].procs && LooksLike(run[i].procs[p], run[i + 1].procs[p])
    ensures run[i + 1].platform == run[i].platform
  {
    hide Allowed, Apply, IsRun;
    RunLengths(run, actions);
    InvAlways(run, actions, i);
    RunStep(run, actions, i);
    OwnerStaysPut(run[i], actions[i], w, p);
  }

  lemma RunLengths(run: seq<State>, actions: seq<Action>)
    requires IsRun(run, actions)
    ensures |run| == |actions| + 1
  {
  }

  lemma {:induction false} ShowsThroughout(
    run: seq<State>, actions: seq<Action>, first: nat, last: nat, w: Watcher, p: Proc)
    requires IsRun(run, actions) && Throughout(run, first, last, w, p)
    ensures p in run[first].procs && Shows(run[last], p, run[first].procs[p])
            && run[last].platform == run[first].platform
    decreases last
  {
    hide IsRun, Shows;
    OwnerShowsNow(run, actions, last, w, p);
    if first < last {
      ShowsThroughout(run, actions, first, last - 1, w, p);
      ShowsSame(run[last - 1], p, run[first].procs[p], run[first].procs[p]);
      OwnerStaysPutAt(run, actions, last - 1, w, p);
      ShowsSame(run[last], p, run[last].procs[p], run[first].procs[p]);
    }
  }

  /** Only its own last step ends an inspection. */
  lemma {:induction false} WatchStays(run: seq<State>, actions: seq<Action>, k: nat, i: nat, w: Watcher)
    requires IsRun(run, actions) && k <= i < |run| && w in run[k].watchers
    requires forall m :: k <= m < i ==> !(actions[m].Finish? && actions[m].w == w)
    ensures w in run[i].watchers
    decreases i - k
  {
    hide Allowed, LiveStartOf, Format, ParseProcessStart;
    if k < i {
      WatchStays(run, actions, k, i - 1, w);
      assert run[i] == Apply(run[i - 1], actions[i - 1]);
    }
  }

  /** Which of the three reads of an inspection fail. */
  datatype Reads = Reads(look: bool, live: bool, last: bool)

  const GOOD_READS := Reads(false, false, false)

  /** The six steps of one inspection by `w`, among any steps of others. */
  ghost predicate Inspection(actions: seq<Action>, w: Watcher, k: seq<nat>, fails: Reads) {
    && |k| == 6 && k[0] < k[1] < k[2] < k[3] < k[4] < k[5] < |actions|
    && actions[k[0]] == Inspect(w) && actions[k[1]] == Sample(w) && actions[k[2]] == Look(w, fails.look)
    && actions[k[3]] == CheckLive(w, fails.live) && actions[k[4]] == Resample(w)
    && actions[k[5]] == Finish(w, fails.last)
    && forall m :: k[0] < m < k[5] && Watches(actions[m], w) ==> m in k
  }

  /** One step of the inspection, and the pause after it until the next. */
  lemma WatchStep(run: seq<State>, actions: seq<Action>, w: Watcher, k: seq<nat>, fails: Reads, j: nat)
    requires IsRun(run, actions) && Inspection(actions, w, k, fails) && j < 5
    ensures Allowed(run[k[j]], actions[k[j]]) && (w in run[k[j + 1]].watchers <==> w in run[k[j] + 1].watchers)
    ensures w in run[k[j] + 1].watchers ==> run[k[j + 1]].watchers[w] == run[k[j] + 1].watchers[w]
    ensures run[k[j] + 1] == Apply(run[k[j]], actions[k[j]])
  {
    hide Allowed, Apply;
    assert forall m :: k[j] + 1 <= m < k[j + 1] ==> m !in k;
    WatchUnchanged(run, actions, k[j] + 1, k[j + 1], w);
  }

  lemma Watched(run: seq<State>, actions: seq<Action>, w: Watcher, k: seq<nat>, fails: Reads, i: nat)
    requires IsRun(run, actions) && Inspection(actions, w, k, fails) && k[0] < i <= k[5]
    ensures w in run[i].watchers
  {
    hide Allowed, Apply;
    RunStep(run, actions, k[0]);
    assert w in run[k[0] + 1].watchers by { Inspected(run[k[0]], w); }
    assert forall m :: k[0] + 1 <= m < i && actions[m].Finish? && actions[m].w == w ==> m in k;
    WatchStays(run, actions, k[0] + 1, i, w);
  }

  lemma Inspected(s: State, w: Watcher)
    requires Allowed(s, Inspect(w))
    ensures w in Apply(s, Inspect(w)).watchers
  {
  }

  /** While someone inspects, nobody writes the file and nobody becomes the owner. */
  lemma InspectedStays(s: State, a: Action, w: Watcher)
    requires Inv(s) && Allowed(s, a) && w in s.watchers
    ensures Apply(s, a).file == s.file && Apply(s, a).platform == s.platform
    ensures Apply(s, a).owner == s.owner || Apply(s, a).owner.None?
  {
    hide ParseProcessStart, ValidToken, Format, LiveStartOf, Parsed, ReadRecord, ProcessOk;
    assert WatchOk(s, w);
    if a.LockOwner? || a.Truncate? || a.WriteMore? { WriterHasFlock(s, a); }
  }

  /** So between any two moments of it the file is the same and the owner the same or gone. */
  lemma {:induction false} InspectedThroughout(
    run: seq<State>, actions: seq<Action>, w: Watcher, k: seq<nat>, fails: Reads, first: nat, last: nat)
    requires IsRun(run, actions) && Inspection(actions, w, k, fails) && k[0] < first <= last <= k[5]
    ensures run[last].file == run[first].file && run[last].platform == run[first].platform
    ensures run[last].owner == run[first].owner || run[last].owner.None?
    decreases last
  {
    hide Allowed, Apply, IsRun;
    RunLengths(run, actions);
    if first < last {
      InspectedThroughout(run, actions, w, k, fails, first, last - 1);
      Watched(run, actions, w, k, fails, last - 1);
      InvAlways(run, actions, last - 1);
      RunStep(run, actions, last - 1);
      InspectedStays(run[last - 1], actions[last - 1], w);
    }
  }

  /** What an inspection has noted down before its second sample. */
  lemma GatheredFirst(run: seq<State>, actions: seq<Action>, w: Watcher, k: seq<nat>, fails: Reads)
    requires IsRun(run, actions) && Inspection(actions, w, k, fails)
    ensures w in run[k[3]].watchers
    ensures run[k[3]].watchers[w] == Looked(OwnerPid(run[k[1]]), ReadRecord(run[k[2]], fails.look))
  {
    hide LiveStartOf, Parsed, ReadRecord, OwnerPid, Allowed, Apply, IsRun, Inspection;
    InspectionSteps(actions, w, k, fails);
    RunLengths(run, actions);
    WatchStep(run, actions, w, k, fails, 1);
    SampleNotes(run[k[1]], w);
    WatchStep(run, actions, w, k, fails, 2);
    LookNotes(run[k[2]], w, fails.look);
  }

  /** And when it comes to its last step. */
  lemma Gathered(run: seq<State>, actions: seq<Action>, w: Watcher, k: seq<nat>, fails: Reads)
    requires IsRun(run, actions) && Inspection(actions, w, k, fails)
    ensures var record := ReadRecord(run[k[2]], fails.look);
            var parsed := Parsed(run[k[3]].platform, record);
            && w in run[k[5]].watchers
            && run[k[5]].watchers[w] == Resampled(
                 OwnerPid(run[k[1]]), record,
                 if parsed.Some? && Some(parsed.value.pid) == OwnerPid(run[k[1]])
                 then LiveStartOf(run[k[3]], parsed.value.pid, fails.live) else None,
                 OwnerPid(run[k[4]]), run[k[4]].owner)
  {
    hide LiveStartOf, Parsed, ReadRecord, OwnerPid, Allowed, Apply, IsRun, Inspection;
    InspectionSteps(actions, w, k, fails);
    RunLengths(run, actions);
    GatheredFirst(run, actions, w, k, fails);
    WatchStep(run, actions, w, k, fails, 3);
    CheckNotes(run[k[3]], w, fails.live);
    WatchStep(run, actions, w, k, fails, 4);
    ResampleNotes(run[k[4]], w);
  }

  lemma InspectionSteps(actions: seq<Action>, w: Watcher, k: seq<nat>, fails: Reads)
    requires Inspection(actions, w, k, fails)
    ensures |k| == 6 && k[0] < k[1] < k[2] < k[3] < k[4] < k[5] < |actions|
    ensures actions[k[1]] == Sample(w) && actions[k[2]] == Look(w, fails.look)
    ensures actions[k[3]] == CheckLive(w, fails.live) && actions[k[4]] == Resample(w)
  {
  }

  // What each step notes down.

  lemma SampleNotes(s: State, w: Watcher)
    requires Allowed(s, Sample(w))
    ensures var after := Apply(s, Sample(w)); w in after.watchers && after.watchers[w] == Sampled(OwnerPid(s))
  {
  }

  lemma LookNotes(s: State, w: Watcher, fails: bool)
    requires Allowed(s, Look(w, fails))
    ensures w in s.watchers && s.watchers[w].Sampled?
    ensures var after := Apply(s, Look(w, fails));
            w in after.watchers && after.watchers[w] == Looked(s.watchers[w].owner1, ReadRecord(s, fails))
  {
  }

  lemma CheckNotes(s: State, w: Watcher, fails: bool)
    requires Allowed(s, CheckLive(w, fails))
    ensures w in s.watchers && s.watchers[w].Looked?
    ensures var after, watch := Apply(s, CheckLive(w, fails)), s.watchers[w];
            var parsed := Parsed(s.platform, watch.record1);
            && w in after.watchers
            && after.watchers[w]
               == Checked(watch.owner1, watch.record1,
                          if parsed.Some? && Some(parsed.value.pid) == watch.owner1
                          then LiveStartOf(s, parsed.value.pid, fails) else None)
  {
    hide LiveStartOf;
  }

  lemma ResampleNotes(s: State, w: Watcher)
    requires Allowed(s, Resample(w))
    ensures w in s.watchers && s.watchers[w].Checked?
    ensures var after, watch := Apply(s, Resample(w)), s.watchers[w];
            && w in after.watchers
            && after.watchers[w] == Resampled(watch.owner1, watch.record1, watch.live, OwnerPid(s), s.owner)
  {
  }

  /** A record that can be read and parsed is in the file. */
  predicate Readable(s: State) {
    Parsed(s.platform, ReadRecord(s, false)).Some?
  }

  /** That is, the file is the record of some valid identity. */
  lemma ReadableIff(s: State)
    ensures Readable(s) <==> exists id :: ValidIdentity(s.platform, id) && s.file == Some(Format(id))
  {
    hide ParseRecord, Format, ParseProcessStart, ValidToken;
    if Readable(s) {
      ParseThenFormat(s.platform, s.file.value);
    }
    forall id | ValidIdentity(s.platform, id) && s.file == Some(Format(id)) ensures Readable(s) {
      FormatThenParse(s.platform, id);
      RecordFits(s.platform, id);
    }
  }

  /**
   What an inspection reports, exactly. `first` and `second` are the states its two samples were
   taken in. Transition: the owner left in between, or the file could be read once only. Held: there
   was an owner at the second sample, and every read worked. Released: there was none at the first,
   and the file holds a record. Invalid is everything else.
   */
  ghost predicate ReportIs(verdict: OwnerStatus, first: State, second: State, fails: Reads) {
    && (verdict.Transition? <==>
          || (first.owner.Some? && second.owner.None?)
          || (fails.look != fails.last && ReadRecord(first, false).Some?))
    && (verdict.Held? <==> second.owner.Some? && fails == GOOD_READS)
    && (verdict.Held? ==>
          second.owner.value in second.procs && verdict.identity == second.procs[second.owner.value].identity)
    && (verdict.Released? <==> first.owner.None? && !fails.look && !fails.last && Readable(first))
  }

  lemma InspectionIsExact(run: seq<State>, actions: seq<Action>, w: Watcher, k: seq<nat>, fails: Reads)
    requires IsRun(run, actions) && Inspection(actions, w, k, fails)
    ensures w in run[k[5]].watchers && run[k[5]].watchers[w].Resampled?
    ensures ReportIs(Verdict(run[k[5]], w, fails.last), run[k[1]], run[k[4]], fails)
  {
    hide IsRun, Allowed, Apply, LiveStartOf, Parsed, OwnerPid, Conclude;
    RunLengths(run, actions);
    Gathered(run, actions, w, k, fails);
    forall j | 2 <= j <= 5
      ensures run[k[j]].file == run[k[1]].file && run[k[j]].platform == run[k[1]].platform
      ensures run[k[j]].owner == run[k[1]].owner || run[k[j]].owner.None?
    {
      InspectedThroughout(run, actions, w, k, fails, k[1], k[j]);
    }
    assert run[k[4]].owner == run[k[1]].owner || run[k[4]].owner.None?;
    if run[k[4]].owner.None? {
      if run[k[1]].owner.Some? { OwnerHasPid(run, actions, w, k, fails, k[1]); }
      OwnerGone(run[k[1]], run[k[4]], run[k[5]], w, fails);
    } else {
      OwnerThroughout(run, actions, w, k, fails);
      OwnerStayed(run[k[1]], run[k[3]], run[k[4]], run[k[5]], w, run[k[4]].owner.value, fails);
    }
  }

  /** The inspection found no owner the second time. */
  lemma OwnerGone(first: State, second: State, end: State, w: Watcher, fails: Reads)
    requires second.owner.None? && end.file == first.file && end.platform == first.platform
    requires first.owner.Some? ==> OwnerPid(first).Some?
    requires w in end.watchers && end.watchers[w].Resampled?
    requires end.watchers[w].owner1 == OwnerPid(first) && end.watchers[w].owner2 == OwnerPid(second)
    requires end.watchers[w].record1 == ReadRecord(first, fails.look)
    ensures ReportIs(Verdict(end, w, fails.last), first, second, fails)
  {
    hide ParseRecord;
  }

  /** It found the same owner both times. */
  lemma OwnerStayed(first: State, middle: State, second: State, end: State, w: Watcher, p: Proc, fails: Reads)
    requires first.owner == Some(p) && second.owner == Some(p) && p in second.procs
    requires Shows(first, p, second.procs[p]) && Shows(middle, p, second.procs[p])
             && Shows(second, p, second.procs[p])
    requires end.file == first.file && end.platform == first.platform == middle.platform
    requires w in end.watchers && end.watchers[w].Resampled?
    requires end.watchers[w].owner1 == OwnerPid(first) && end.watchers[w].owner2 == OwnerPid(second)
    requires end.watchers[w].record1 == ReadRecord(first, fails.look)
    requires var parsed := Parsed(middle.platform, ReadRecord(first, fails.look));
             end.watchers[w].live == if parsed.Some? && Some(parsed.value.pid) == OwnerPid(first)
                                     then LiveStartOf(middle, parsed.value.pid, fails.live) else None
    ensures ReportIs(Verdict(end, w, fails.last), first, second, fails)
  {
    hide ParseRecord, Format;
    LookupFails(middle, second.procs[p].pid);
    hide LiveStartOf;
  }

  lemma LookupFails(s: State, pid: int)
    ensures LiveStartOf(s, pid, true).None?
  {
  }

  lemma OwnerHasPid(run: seq<State>, actions: seq<Action>, w: Watcher, k: seq<nat>, fails: Reads, i: nat)
    requires IsRun(run, actions) && Inspection(actions, w, k, fails) && k[0] < i <= k[5] && run[i].owner.Some?
    ensures OwnerPid(run[i]).Some?
  {
    hide Allowed, Apply, IsRun, LiveStartOf, Parsed, ReadRecord;
    RunLengths(run, actions);
    Watched(run, actions, w, k, fails, i);
    OwnerShowsNow(run, actions, i, w, run[i].owner.value);
  }

  /** An owner that is still there at the second sample has shown itself since the first. */
  lemma OwnerThroughout(run: seq<State>, actions: seq<Action>, w: Watcher, k: seq<nat>, fails: Reads)
    requires IsRun(run, actions) && Inspection(actions, w, k, fails) && run[k[4]].owner.Some?
    ensures var p := run[k[4]].owner.value;
            && p in run[k[4]].procs && run[k[1]].owner == Some(p)
            && Shows(run[k[1]], p, run[k[4]].procs[p]) && Shows(run[k[3]], p, run[k[4]].procs[p])
            && Shows(run[k[4]], p, run[k[4]].procs[p])
  {
    hide IsRun, Shows, Allowed, Apply;
    RunLengths(run, actions);
    var p := run[k[4]].owner.value;
    forall i | k[1] <= i <= k[4] ensures w in run[i].watchers && run[i].owner == Some(p) {
      Watched(run, actions, w, k, fails, i);
      InspectedThroughout(run, actions, w, k, fails, i, k[4]);
    }
    OwnerLooksTheSame(run, actions, k[1], k[4], w, p);
    OwnerLooksTheSame(run, actions, k[3], k[4], w, p);
    OwnerLooksTheSame(run, actions, k[4], k[4], w, p);
  }

  lemma OwnerLooksTheSame(run: seq<State>, actions: seq<Action>, first: nat, last: nat, w: Watcher, p: Proc)
    requires IsRun(run, actions) && Throughout(run, first, last, w, p)
    ensures p in run[last].procs && Shows(run[first], p, run[last].procs[p])
  {
    hide IsRun, Shows;
    ShowsThroughout(run, actions, first, last, w, p);
    OwnerShowsNow(run, actions, last, w, p);
    ShowsSame(run[last], p, run[first].procs[p], run[first].procs[p]);
    OwnerShowsNow(run, actions, first, w, p);
    ShowsSame(run[first], p, run[first].procs[p], run[last].procs[p]);
  }

  /** So an owner that stays put during an inspection is reported, with the identity it published. */
  lemma StableOwnerIsReported(run: seq<State>, actions: seq<Action>, w: Watcher, k: seq<nat>, p: Proc)
    requires IsRun(run, actions) && Inspection(actions, w, k, GOOD_READS)
    requires forall i :: k[0] < i <= k[5] ==> run[i].owner == Some(p)
    ensures w in run[k[5]].watchers && run[k[5]].watchers[w].Resampled?
    ensures p in run[k[5]].procs && Verdict(run[k[5]], w, false) == Held(run[k[5]].procs[p].identity)
  {
    hide IsRun, Shows, Allowed, Apply, Verdict;
    RunLengths(run, actions);
    InspectionIsExact(run, actions, w, k, GOOD_READS);
    forall i | k[4] <= i <= k[5] ensures w in run[i].watchers {
      Watched(run, actions, w, k, GOOD_READS, i);
    }
    OwnerLooksTheSame(run, actions, k[4], k[5], w, p);
    ShowsSame(run[k[4]], p, run[k[5]].procs[p], run[k[5]].procs[p]);
  }

  /** And a lock that nobody owns, with a record in the file, is reported as released. */
  lemma FreeLockIsReported(run: seq<State>, actions: seq<Action>, w: Watcher, k: seq<nat>)
    requires IsRun(run, actions) && Inspection(actions, w, k, GOOD_READS)
    requires run[k[1]].owner.None?
    ensures w in run[k[5]].watchers && run[k[5]].watchers[w].Resampled?
    ensures Verdict(run[k[5]], w, false) == if Readable(run[k[1]]) then Released else Invalid
  {
    hide IsRun, Allowed, Apply, Verdict, Readable;
    InspectionIsExact(run, actions, w, k, GOOD_READS);
    InspectedThroughout(run, actions, w, k, GOOD_READS, k[1], k[4]);
  }
}
