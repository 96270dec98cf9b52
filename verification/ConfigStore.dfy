/**
 `Store::mutate`, `recover_transaction`, `cleanup_transaction` and `verify_write_grant`, one
 system call at a time. Every system call may fail, and the process may be killed or the power
 lost between any two of them; the object records every state it passes through, and what is
 proved holds of each of these states.
 */
module ConfigStore {
  import opened Optional
  import opened ConfigDisk
  import opened ConfigRecovery
  import M = TransactionMarker
  import opened ConfigDocument

  // ---------------------------------------------------------------- documents

  /**
   The digest and the document layer. `plan` gives the bytes a mutation of the current document
   writes, or `None` when the document or the mutation is invalid; `grants` says of a document
   whether it is valid and lets an account write. `ConfigSystem` supplies the ones of the source.
   */
  datatype Env = Env(hash: string -> string, plan: (Option<string>, Mutation) -> Option<string>,
                     grants: (Option<string>, string) -> Option<bool>)

  ghost predicate EnvOk(env: Env) {
    && (forall s :: M.IsDigest(env.hash(s)))
    && (forall current, m :: env.plan(current, m).Some? ==>
          |env.plan(current, m).value| <= MAX_CONFIG_BYTES && (current.Some? ==> |current.value| <= MAX_CONFIG_BYTES))
  }

  /** The mutation does not turn this document into a different one with the same digest. */
  predicate CollisionFree(env: Env, current: Option<string>, m: Mutation) {
    var planned := env.plan(current, m);
    current.Some? && planned.Some? && env.hash(current.value) == env.hash(planned.value) ==> current == planned
  }

  predicate CollisionFreeOn(env: Env, d: Disk, m: Mutation) {
    CollisionFree(env, Read(d, Config), m) && CollisionFree(env, Read(d, Replacement), m)
  }

  datatype Identity = Missing | Known(digest: string, inode: Inode)

  function IdentityOf(env: Env, d: Disk): Identity {
    if Config in d.entries && d.entries[Config] in d.data
    then Known(env.hash(d.data[d.entries[Config]]), d.entries[Config])
    else Missing
  }

  // ---------------------------------------------------------------- the history of committed documents

  /** A transaction that has a marker, or may have one on disk. */
  datatype Open = Open(plan: Plan, mutation: Mutation, renamed: bool)

  /** `chain` are the documents durably committed so far; `links` the mutations between them. */
  datatype Log = Log(chain: seq<Option<string>>, links: seq<Mutation>, open: Option<Open>)

  ghost predicate LogOk(log: Log, env: Env) {
    && |log.chain| == |log.links| + 1
    && (forall i :: 0 <= i < |log.links| ==>
          env.plan(log.chain[i], log.links[i]).Some?
          && log.chain[i + 1] == env.plan(log.chain[i], log.links[i]))
    && (log.open.Some? ==>
          && PlanOk(log.open.value.plan, env.hash)
          && log.open.value.plan.before == Head(log)
          && env.plan(Head(log), log.open.value.mutation) == Some(log.open.value.plan.after))
  }

  function Head(log: Log): Option<string>
  {
    if log.chain == [] then None else log.chain[|log.chain| - 1]
  }

  ghost predicate Settled(e: Dir, v: Contents, doc: Option<string>) {
    Marker !in e && Holds(e, v, Config, doc)
  }

  /** What one directory image may look like, given the history. */
  ghost predicate ImageOk(e: Dir, v: Contents, log: Log) {
    match log.open
    case None => Settled(e, v, Head(log))
    case Some(open) => Uncommitted(e, v, open.plan) || (open.renamed && CommittedLayout(e, v, open.plan))
  }

  ghost predicate Safe(d: Disk, log: Log, env: Env) {
    && DiskOk(d) && LogOk(log, env)
    && forall e :: e in d.images ==> ImageOk(e, d.versions, log)
  }

  /** The history once the open transaction is decided. */
  function Closed(log: Log, committed: bool): Log {
    match log.open
    case None => log
    case Some(open) =>
      if committed then Log(log.chain + [Some(open.plan.after)], log.links + [open.mutation], None)
      else log.(open := None)
  }

  datatype Moment = Moment(disk: Disk, log: Log)

  /**
   One system call between two moments. The history only changes with the rename that commits, and
   with the directory sync that settles a transaction.
   */
  ghost predicate Called(now: Moment, call: Call, next: Moment) {
    && Possible(now.disk, call) && next.disk == Perform(now.disk, call)
    && (|| next.log == now.log
        || (call == RenameCall(Committed, Marker) && next.log == Renamed(now.log))
        || (call.SyncDirectoryCall? && Settles(now, next.log)))
  }

  ghost predicate Settles(now: Moment, log: Log) {
    && Marker !in now.disk.entries
    && exists committed :: Deciding(now.disk, now.log, committed) && log == Closed(now.log, committed)
  }

  /** A transaction begins, which touches nothing. */
  ghost predicate Begins(now: Moment, next: Moment) {
    && next.disk == now.disk && now.log.open.None? && next.log.open.Some?
    && next.log == now.log.(open := next.log.open) && !next.log.open.value.renamed
  }

  /** What may lie between two neighbouring moments: one system call, a power loss, or a beginning. */
  ghost predicate Follows(now: Moment, next: Moment) {
    || (exists call :: Called(now, call, next))
    || (PowerLoss(now.disk, next.disk) && next.log == now.log)
    || Begins(now, next)
  }

  /** Every recorded moment is safe and one step after the one before, and the history only ever grows. */
  ghost predicate TraceOk(trace: seq<Moment>, env: Env) {
    && (forall k :: 0 <= k < |trace| ==> Safe(trace[k].disk, trace[k].log, env))
    && (forall i, j :: 0 <= i < j < |trace| && j == i + 1 ==> Follows(trace[i], trace[j]))
    && (forall i, j :: 0 <= i <= j < |trace| ==> trace[i].log.chain <= trace[j].log.chain)
  }

  lemma TraceGrows(trace: seq<Moment>, env: Env, next: Moment)
    requires TraceOk(trace, env) && trace != []
    requires Safe(next.disk, next.log, env) && Follows(trace[|trace| - 1], next)
    requires trace[|trace| - 1].log.chain <= next.log.chain
    ensures TraceOk(trace + [next], env)
  {
    hide Safe, Follows;
  }

  lemma TraceShrinks(trace: seq<Moment>, env: Env, n: nat)
    requires TraceOk(trace, env) && n <= |trace|
    ensures TraceOk(trace[..n], env)
  {
    hide Safe, Follows;
  }

  // ---------------------------------------------------------------- crash safety, at any moment

  /** The commit has happened in what a process sees now. */
  ghost predicate IsCommitted(d: Disk, log: Log) {
    log.open.Some? && !Uncommitted(d.entries, d.versions, log.open.value.plan)
  }

  /** The transaction was cut down where its marker or its rollback copy is incomplete. */
  ghost predicate Stuck(d: Disk, log: Log) {
    && log.open.Some? && NotExchanged(d.entries, d.versions, log.open.value.plan)
    && Unrecoverable(d, log.open.value.plan)
  }

  /**
   At any safe moment recovery refuses exactly when the transaction is stuck, and then config.toml
   is the last committed document. It ends with the old document if the commit rename is not on the
   disk it finds, and with the new one if it is.
   */
  lemma RecoveryIsExact(d: Disk, log: Log, env: Env)
    requires EnvOk(env) && Safe(d, log, env)
    ensures DecideDisk(d, env.hash).Refuse? <==> Stuck(d, log)
    ensures Stuck(d, log) ==> Read(d, Config) == Head(log)
    ensures Outcome(d, env.hash) == Head(Closed(log, IsCommitted(d, log)))
  {
    assert ImageOk(d.entries, d.versions, log);
    if log.open.None? {
      ReadHolds(d, Config, Head(log));
    } else {
      var p := log.open.value.plan;
      if NotExchanged(d.entries, d.versions, p) {
        DecidesNotExchanged(d, p, env.hash);
      } else if Exchanged(d.entries, d.versions, p) {
        DecidesExchanged(d, p, env.hash);
      } else {
        DecidesCommitted(d, p, env.hash);
      }
    }
  }

  /** Whatever the power loss leaves is as safe as what was there. */
  lemma PowerLossIsSafe(d: Disk, log: Log, env: Env, after: Disk)
    requires Safe(d, log, env) && PowerLoss(d, after)
    ensures Safe(after, log, env)
  {
    var e := after.entries;
    assert ImageOk(e, d.versions, log);
    forall n, bytes | Is(e, d.versions, n, bytes)
      ensures Is(e, after.versions, n, bytes)
    {
      assert after.data[e[n]] in d.versions[e[n]];
    }
    if Marker in e {
      assert after.data[e[Marker]] in d.versions[e[Marker]];
    }
  }

  /** While there is a marker, it says whether the commit has happened. */
  lemma MarkerTells(d: Disk, log: Log, env: Env)
    requires EnvOk(env) && Safe(d, log, env) && Marker in d.entries
    ensures log.open.Some? && (IsCommitted(d, log) <==> Read(d, Marker) == Some(Text(log.open.value.plan, true)))
  {
    assert ImageOk(d.entries, d.versions, log);
    var p := log.open.value.plan;
    MarkersDiffer(p, env.hash);
    if NotExchanged(d.entries, d.versions, p) {
      assert d.data[d.entries[Marker]] in d.versions[d.entries[Marker]];
    } else if Exchanged(d.entries, d.versions, p) {
      ReadIs(d, Marker, Text(p, false));
    } else {
      ReadIs(d, Marker, Text(p, true));
    }
  }

  /** No beginning of the pending marker is the committed one. */
  lemma MarkersDiffer(p: Plan, hash: string -> string)
    requires PlanOk(p, hash)
    ensures !(Text(p, true) <= Text(p, false))
  {
    if Text(p, true) <= Text(p, false) {
      MarkerText(p, hash, true, Text(p, true));
      MarkerText(p, hash, false, Text(p, true));
    }
  }

  // ---------------------------------------------------------------- what a power loss may take back

  /** Whatever a power loss leaves, recovery ends with `doc`. */
  ghost predicate Lasting(d: Disk, hash: string -> string, doc: Option<string>) {
    forall after :: PowerLoss(d, after) ==> Outcome(after, hash) == doc
  }

  /** The open transaction has two different documents. */
  predicate Changes(log: Log) {
    log.open.Some? && log.open.value.plan.before != Some(log.open.value.plan.after)
  }

  /** The commit rename of a transaction that changes something is in some images and not in others. */
  ghost predicate Torn(d: Disk, log: Log) {
    && Changes(log)
    && exists e :: e in d.images && Uncommitted(e, d.versions, log.open.value.plan)
                                    != Uncommitted(d.entries, d.versions, log.open.value.plan)
  }

  /** A transaction that changes something is committed or not, and a power loss leaves it so. */
  lemma LayoutsStay(d: Disk, log: Log, env: Env, after: Disk)
    requires Safe(d, log, env) && PowerLoss(d, after) && Changes(log)
    ensures Uncommitted(after.entries, d.versions, log.open.value.plan)
            <==> Uncommitted(after.entries, after.versions, log.open.value.plan)
  {
    var p, e := log.open.value.plan, after.entries;
    assert ImageOk(e, d.versions, log);
    forall n, bytes | Is(e, d.versions, n, bytes) ensures Is(e, after.versions, n, bytes) {
      assert after.data[e[n]] in d.versions[e[n]];
    }
    if Marker in e {
      assert after.data[e[Marker]] in d.versions[e[Marker]];
    }
    if !Uncommitted(e, d.versions, p) {
      CertainContentsStay(e, d.versions, after.versions, p);
      CommittedIsNotUncommitted(e, after.versions, p, env.hash);
    }
  }

  lemma CommittedIsNotUncommitted(e: Dir, v: Contents, p: Plan, hash: string -> string)
    requires PlanOk(p, hash) && p.before != Some(p.after) && CommittedLayout(e, v, p)
    ensures !Uncommitted(e, v, p)
  {
    MarkersDiffer(p, hash);
  }

  /**
   At any safe moment: the document recovery would end with now is the one it ends with after any
   power loss, exactly unless the commit rename is caught between the images.
   */
  lemma LastingIffNotTorn(d: Disk, log: Log, env: Env)
    requires EnvOk(env) && Safe(d, log, env)
    ensures Lasting(d, env.hash, Outcome(d, env.hash)) <==> !Torn(d, log)
  {
    assert LogOk(log, env) && DiskOk(d);
    hide Outcome, EnvOk, Safe, PlanOk, Uncommitted, PowerLoss, Closed, Head;
    RecoveryIsExact(d, log, env);
    if Torn(d, log) {
      var p := log.open.value.plan;
      var e :| e in d.images && Uncommitted(e, d.versions, p) != Uncommitted(d.entries, d.versions, p);
      LeftByPowerLoss(d, e);
      OutcomeAfterPowerLoss(d, log, env, Left(d, e));
      OutcomesDiffer(log, env);
    } else {
      forall after | PowerLoss(d, after) ensures Outcome(after, env.hash) == Outcome(d, env.hash) {
        ImageOfPowerLoss(d, after);
        OutcomeAfterPowerLoss(d, log, env, after);
        if !Changes(log) { OutcomesAgree(log, env); }
      }
    }
  }

  lemma OutcomeAfterPowerLoss(d: Disk, log: Log, env: Env, after: Disk)
    requires EnvOk(env) && Safe(d, log, env) && PowerLoss(d, after)
    ensures Outcome(after, env.hash) == Head(Closed(log, IsCommitted(after, log)))
    ensures Changes(log) ==>
              (IsCommitted(after, log) <==> !Uncommitted(after.entries, d.versions, log.open.value.plan))
  {
    hide Outcome, EnvOk, Safe, PlanOk, Uncommitted, PowerLoss, Closed, Head;
    PowerLossIsSafe(d, log, env, after);
    RecoveryIsExact(after, log, env);
    if Changes(log) { LayoutsStay(d, log, env, after); }
  }

  lemma OutcomesDiffer(log: Log, env: Env)
    requires LogOk(log, env) && Changes(log)
    ensures Head(Closed(log, true)) != Head(Closed(log, false))
  {
  }

  lemma OutcomesAgree(log: Log, env: Env)
    requires LogOk(log, env) && !Changes(log)
    ensures Head(Closed(log, true)) == Head(Closed(log, false))
  {
  }

  /** That takes a commit rename after which the directory has not been synced. */
  lemma TornIsUnsynced(d: Disk, log: Log, env: Env)
    requires Safe(d, log, env) && Torn(d, log)
    ensures log.open.value.renamed && d.images != {d.entries}
  {
    hide Uncommitted, LogOk;
  }

  /** The new document is in place and committed after every power loss exactly if it is in every image. */
  lemma CommittedForGoodIff(d: Disk, log: Log, env: Env)
    requires EnvOk(env) && Safe(d, log, env) && Changes(log)
    ensures (forall after :: PowerLoss(d, after) ==>
                Read(after, Config) == Some(log.open.value.plan.after) && IsCommitted(after, log))
            <==> (forall e :: e in d.images ==> CommittedLayout(e, d.versions, log.open.value.plan))
  {
    hide EnvOk, PowerLoss, IsCommitted, CommittedLayout;
    var p := log.open.value.plan;
    forall after | PowerLoss(d, after)
      ensures IsCommitted(after, log) <==> CommittedLayout(after.entries, d.versions, p)
      ensures IsCommitted(after, log) ==> Read(after, Config) == Some(p.after)
    {
      CommittedAfterPowerLoss(d, log, env, after);
    }
    forall e | e in d.images ensures PowerLoss(d, Left(d, e)) {
      LeftByPowerLoss(d, e);
    }
    forall after | PowerLoss(d, after) ensures after.entries in d.images {
      ImageOfPowerLoss(d, after);
    }
    if e :| e in d.images && !CommittedLayout(e, d.versions, p) {
      assert PowerLoss(d, Left(d, e)) && !IsCommitted(Left(d, e), log);
    }
  }

  lemma CommittedAfterPowerLoss(d: Disk, log: Log, env: Env, after: Disk)
    requires EnvOk(env) && Safe(d, log, env) && Changes(log) && PowerLoss(d, after)
    ensures IsCommitted(after, log) <==> CommittedLayout(after.entries, d.versions, log.open.value.plan)
    ensures IsCommitted(after, log) ==> Read(after, Config) == Some(log.open.value.plan.after)
  {
    var p := log.open.value.plan;
    assert ImageOk(after.entries, d.versions, log);
    PowerLossIsSafe(d, log, env, after);
    LayoutsStay(d, log, env, after);
    assert ImageOk(after.entries, after.versions, log);
    hide LogOk, PowerLoss, EnvOk;
    if CommittedLayout(after.entries, d.versions, p) {
      CommittedIsNotUncommitted(after.entries, d.versions, p, env.hash);
    }
    if IsCommitted(after, log) {
      DecidesCommitted(after, p, env.hash);
    }
  }

  lemma ImageOfPowerLoss(d: Disk, after: Disk)
    requires PowerLoss(d, after)
    ensures after.entries in d.images
  {
  }

  /**
   With no marker in sight and nobody at work, config.toml is a committed document, and it stays one
   exactly unless its commit rename is not yet durable.
   */
  lemma MarkerAtRest(d: Disk, log: Log, env: Env)
    requires EnvOk(env) && Safe(d, log, env) && Marker !in d.entries
    ensures Read(d, Config) == Head(Closed(log, IsCommitted(d, log)))
    ensures IsCommitted(d, log) ==> log.open.value.renamed
    ensures Lasting(d, env.hash, Read(d, Config)) <==> !Torn(d, log)
  {
    assert ImageOk(d.entries, d.versions, log);
    RecoveryIsExact(d, log, env);
    LastingIffNotTorn(d, log, env);
  }

  // ---------------------------------------------------------------- steps keep the layouts

  /** An image is judged by the contents of its own inodes only. */
  lemma FrameImage(e: Dir, v: Contents, w: Contents, log: Log)
    requires ImageOk(e, v, log)
    requires forall n :: n in e ==> e[n] in v && e[n] in w && w[e[n]] == v[e[n]]
    ensures ImageOk(e, w, log)
  {
  }

  /** The temporary file and the committed marker's own name decide nothing. */
  lemma IrrelevantName(e: Dir, v: Contents, log: Log, name: Name, inode: Inode)
    requires ImageOk(e, v, log) && name in {Temporary, Committed}
    ensures ImageOk(e[name := inode], v, log)
    ensures ImageOk(e - {name}, v, log)
  {
  }

  lemma UnlinkKeeps(e: Dir, v: Contents, p: Plan, name: Name)
    requires name != Config
    ensures NotExchanged(e, v, p) ==> NotExchanged(e - {name}, v, p)
    ensures CommittedLayout(e, v, p) ==> CommittedLayout(e - {name}, v, p)
  {
  }

  /** The layout from which cleanup may run: nothing moved yet, or everything committed. */
  ghost predicate Deciding(d: Disk, log: Log, committed: bool) {
    log.open.Some? ==>
      var open := log.open.value;
      if committed then open.renamed && CommittedLayout(d.entries, d.versions, open.plan)
      else NotExchanged(d.entries, d.versions, open.plan)
  }

  lemma ClosingIsSafe(d: Disk, log: Log, env: Env, committed: bool)
    requires Safe(d, log, env) && Marker !in d.entries && Deciding(d, log, committed)
    ensures Safe(SyncDirectory(d), Closed(log, committed), env)
    ensures log.chain <= Closed(log, committed).chain
  {
    var after := Closed(log, committed);
    if log.open.Some? && committed {
      forall i | 0 <= i < |after.links|
        ensures env.plan(after.chain[i], after.links[i]).Some?
                && after.chain[i + 1] == env.plan(after.chain[i], after.links[i])
      {
        if i < |log.links| {
          assert log.chain[i + 1] == env.plan(log.chain[i], log.links[i]);
        }
      }
    }
  }

  lemma UnlinkIsSafe(d: Disk, log: Log, env: Env, committed: bool, name: Name)
    requires Safe(d, log, env) && Deciding(d, log, committed) && name != Config
    ensures Safe(Unlink(d, name), log, env) && Deciding(Unlink(d, name), log, committed)
  {
    assert ImageOk(d.entries, d.versions, log);
    if log.open.Some? {
      UnlinkKeeps(d.entries, d.versions, log.open.value.plan, name);
    }
  }

  /** The exchange that rolls back is decided with the documents exchanged, or with both the same. */
  lemma SwapBackLayout(d: Disk, log: Log, env: Env)
    requires EnvOk(env) && Safe(d, log, env) && DecideDisk(d, env.hash).SwapBack?
    ensures log.open.Some? && !IsCommitted(d, log)
    ensures var p := log.open.value.plan;
            || Exchanged(d.entries, d.versions, p)
            || (NotExchanged(d.entries, d.versions, p) && p.before.Some? && Replacement in d.entries
                && Is(d.entries, d.versions, Replacement, p.before.value))
    ensures Config in d.entries && Replacement in d.entries
  {
    assert ImageOk(d.entries, d.versions, log);
    ReadNone(d, Marker);
    ReadNone(d, Config);
    ReadNone(d, Replacement);
    if log.open.Some? {
      var p := log.open.value.plan;
      if NotExchanged(d.entries, d.versions, p) {
        DecidesNotExchanged(d, p, env.hash);
        ReadIs(d, Replacement, p.after);
      } else if Exchanged(d.entries, d.versions, p) {
        DecidesExchanged(d, p, env.hash);
      } else {
        DecidesCommitted(d, p, env.hash);
      }
    }
  }

  /** It leaves the old document in place. */
  lemma SwapBackKeeps(e: Dir, v: Contents, p: Plan)
    requires Config in e && Replacement in e
    requires Exchanged(e, v, p) || (NotExchanged(e, v, p) && p.before.Some? && Is(e, v, Replacement, p.before.value))
    ensures NotExchanged(e[Config := e[Replacement]][Replacement := e[Config]], v, p)
  {
  }

  lemma SwapBackIsSafe(d: Disk, log: Log, env: Env)
    requires EnvOk(env) && Safe(d, log, env) && DecideDisk(d, env.hash).SwapBack?
    ensures Config in d.entries && Replacement in d.entries && !IsCommitted(d, log)
    ensures Safe(Exchange(d, Config, Replacement), log, env)
    ensures Deciding(Exchange(d, Config, Replacement), log, false)
  {
    hide LogOk, Decide, IsCommitted, NotExchanged, Exchanged, CommittedLayout;
    SwapBackLayout(d, log, env);
    SwapBackKeeps(d.entries, d.versions, log.open.value.plan);
  }

  lemma RemoveConfigIsSafe(d: Disk, log: Log, env: Env)
    requires EnvOk(env) && Safe(d, log, env) && DecideDisk(d, env.hash).RemoveConfig?
    ensures !IsCommitted(d, log)
    ensures Safe(Unlink(d, Config), log, env)
    ensures Deciding(Unlink(d, Config), log, false)
  {
    assert ImageOk(d.entries, d.versions, log);
    if log.open.Some? {
      var p := log.open.value.plan;
      if NotExchanged(d.entries, d.versions, p) {
        DecidesNotExchanged(d, p, env.hash);
      } else if Exchanged(d.entries, d.versions, p) {
        DecidesExchanged(d, p, env.hash);
      } else {
        DecidesCommitted(d, p, env.hash);
      }
    }
  }

  lemma InPlaceIsDeciding(d: Disk, log: Log, env: Env)
    requires EnvOk(env) && Safe(d, log, env)
    requires DecideDisk(d, env.hash) in {RemoveOrphans, FinishCommit, KeepOld}
    ensures Deciding(d, log, IsCommitted(d, log))
    ensures DecideDisk(d, env.hash).RemoveOrphans? <==> Marker !in d.entries
    ensures DecideDisk(d, env.hash).FinishCommit? ==> IsCommitted(d, log)
    ensures DecideDisk(d, env.hash).KeepOld? ==> !IsCommitted(d, log)
  {
    assert ImageOk(d.entries, d.versions, log);
    ReadNone(d, Marker);
    if log.open.Some? {
      var p := log.open.value.plan;
      if NotExchanged(d.entries, d.versions, p) {
        DecidesNotExchanged(d, p, env.hash);
      } else if Exchanged(d.entries, d.versions, p) {
        DecidesExchanged(d, p, env.hash);
      } else {
        DecidesCommitted(d, p, env.hash);
      }
    }
  }

  // ---------------------------------------------------------------- writing a file

  /** The marker is being written: every image still has the old document in place. */
  ghost predicate Preparing(d: Disk, log: Log) {
    && log.open.Some?
    && (forall e :: e in d.images ==> NotExchanged(e, d.versions, log.open.value.plan))
    && (Replacement in d.entries ==> Is(d.entries, d.versions, Replacement, log.open.value.plan.after))
  }

  /** A file that may be written now: one that decides nothing, or the pending marker. */
  ghost predicate Writable(d: Disk, log: Log, name: Name, bytes: string) {
    || name in {Temporary, Committed}
    || (name == Marker && Preparing(d, log) && bytes == Text(log.open.value.plan, false))
  }

  /** Every file of `d` is in `after` with the same certain contents. */
  ghost predicate KeepsFiles(d: Disk, after: Disk) {
    forall i :: i in d.data ==> i in after.data && i in d.versions && i in after.versions
                                && after.data[i] == d.data[i] && after.versions[i] == d.versions[i]
  }

  /** All images survive, and only the newest may be new. */
  ghost predicate AddsOneImage(d: Disk, after: Disk) {
    d.images <= after.images && after.images <= d.images + {after.entries}
  }

  lemma FrameNotExchanged(e: Dir, v: Contents, w: Contents, p: Plan)
    requires NotExchanged(e, v, p)
    requires forall n :: n in e ==> e[n] in v && e[n] in w && w[e[n]] == v[e[n]]
    ensures NotExchanged(e, w, p)
  {
  }

  lemma CreateIsSafe(d: Disk, log: Log, env: Env, name: Name, bytes: string)
    requires Safe(d, log, env) && Writable(d, log, name, bytes)
    ensures Safe(Create(d, name), log, env) && Writable(Create(d, name), log, name, bytes)
    ensures Private(Create(d, name), name, d.next)
  {
    hide LogOk, ImageOk, NotExchanged;
    var after := Create(d, name);
    CreateIsOk(d, name);
    assert ImageOk(d.entries, d.versions, log);
    forall e | e in d.images
      ensures ImageOk(e, after.versions, log)
      ensures name == Marker ==> NotExchanged(e, after.versions, log.open.value.plan)
    {
      FrameImage(e, d.versions, after.versions, log);
      if name == Marker {
        FrameNotExchanged(e, d.versions, after.versions, log.open.value.plan);
      }
    }
    if name != Marker {
      IrrelevantName(d.entries, after.versions, log, name, d.next);
    } else {
      EmptyMarker(d, log);
    }
  }

  lemma CreateIsOk(d: Disk, name: Name)
    requires DiskOk(d)
    ensures DiskOk(Create(d, name)) && Private(Create(d, name), name, d.next)
  {
  }

  lemma EmptyMarker(d: Disk, log: Log)
    requires DiskOk(d) && Preparing(d, log)
    ensures var after := Create(d, Marker);
            && NotExchanged(after.entries, after.versions, log.open.value.plan)
                && ImageOk(after.entries, after.versions, log)
            && (Replacement in after.entries ==>
                Is(after.entries, after.versions, Replacement, log.open.value.plan.after))
  {
    var after := Create(d, Marker);
    FrameNotExchanged(d.entries, d.versions, after.versions, log.open.value.plan);
    assert after.versions[d.next] == {""};
  }

  /** Changing the contents of a private file touches no image except through that name. */
  lemma RewriteIsSafe(d: Disk, log: Log, env: Env, name: Name, bytes: string, after: Disk)
    requires Safe(d, log, env) && Writable(d, log, name, bytes)
    requires name in d.entries && Private(d, name, d.entries[name])
    requires DiskOk(after) && after.entries == d.entries && after.images == d.images
    requires forall i :: i in d.versions && i != d.entries[name] ==>
             i in after.versions && after.versions[i] == d.versions[i]
    requires d.entries[name] in after.versions
    requires name == Marker ==> forall s :: s in after.versions[d.entries[name]] ==> s <= bytes
    ensures Safe(after, log, env) && Writable(after, log, name, bytes)
  {
    forall e | e in d.images
      ensures ImageOk(e, after.versions, log)
      ensures name == Marker ==> NotExchanged(e, after.versions, log.open.value.plan)
    {
      if name == Marker {
        assert NotExchanged(e, d.versions, log.open.value.plan);
      } else {
        IrrelevantName(e, d.versions, log, name, 0);
        FrameImage(e - {name}, d.versions, after.versions, log);
        if name in e {
          IrrelevantName(e - {name}, after.versions, log, name, e[name]);
          assert (e - {name})[name := e[name]] == e;
        } else {
          assert e - {name} == e;
        }
      }
    }
  }

  /** `name` was created on `start` and holds the first `written` bytes; no other file changed. */
  ghost predicate Growing(start: Disk, d: Disk, name: Name, bytes: string, written: nat) {
    && written <= |bytes|
    && d.entries == start.entries[name := start.next] && d.images == start.images + {d.entries}
    && Private(d, name, start.next) && KeepsFiles(start, d)
    && d.data[start.next] == bytes[..written]
    && forall s :: s in d.versions[start.next] ==> s <= bytes
  }

  lemma GrowingStarts(d: Disk, name: Name, bytes: string)
    requires DiskOk(d) && Private(Create(d, name), name, d.next)
    ensures Growing(d, Create(d, name), name, bytes, 0)
  {
  }

  lemma GrowingContinues(start: Disk, d: Disk, name: Name, bytes: string, written: nat, count: nat)
    requires DiskOk(start) && Growing(start, d, name, bytes, written) && count <= |bytes|
    ensures start.next in d.versions && Growing(start, Write(d, start.next, bytes[..count]), name, bytes, count)
  {
  }

  lemma GrowingEnds(start: Disk, d: Disk, name: Name, bytes: string)
    requires DiskOk(start) && Growing(start, d, name, bytes, |bytes|)
    ensures start.next in d.data && d.entries[name] == start.next && d.data[start.next] == bytes
    ensures var after := SyncFile(d, start.next);
            KeepsFiles(start, after) && AddsOneImage(start, after) && Is(after.entries, after.versions, name, bytes)
  {
    assert bytes[..|bytes|] == bytes;
  }

  // ---------------------------------------------------------------- the steps of a commit

  function Begun(log: Log, plan: Plan, m: Mutation): Log {
    log.(open := Some(Open(plan, m, false)))
  }

  function Renamed(log: Log): Log {
    match log.open
    case None => log
    case Some(open) => log.(open := Some(open.(renamed := true)))
  }

  lemma StagingIsSafe(d: Disk, log: Log, env: Env)
    requires Safe(d, log, env) && log.open.None? && Temporary in d.entries
    ensures Safe(Rename(d, Temporary, Replacement), log, env)
    ensures Safe(Unlink(d, Temporary), log, env)
  {
    assert ImageOk(d.entries, d.versions, log);
  }

  lemma BeginningIsSafe(d: Disk, log: Log, env: Env, plan: Plan, m: Mutation)
    requires Safe(d, log, env) && log.open.None?
    requires PlanOk(plan, env.hash) && plan.before == Head(log) && env.plan(Head(log), m) == Some(plan.after)
    requires Is(d.entries, d.versions, Replacement, plan.after)
    ensures Safe(d, Begun(log, plan, m), env) && Preparing(d, Begun(log, plan, m))
  {
    forall e | e in d.images
      ensures NotExchanged(e, d.versions, plan)
    {
      assert ImageOk(e, d.versions, log);
    }
  }

  /** The pending marker is durable and both documents are in place. */
  ghost predicate Prepared(d: Disk, log: Log) {
    && log.open.Some? && NotExchanged(d.entries, d.versions, log.open.value.plan)
    && Is(d.entries, d.versions, Marker, Text(log.open.value.plan, false))
    && Is(d.entries, d.versions, Replacement, log.open.value.plan.after)
  }

  lemma PreparingIsDeciding(d: Disk, log: Log)
    requires d.entries in d.images && Preparing(d, log)
    ensures Deciding(d, log, false)
    ensures Replacement in d.entries && Is(d.entries, d.versions, Marker, Text(log.open.value.plan, false)) ==>
            Prepared(d, log)
  {
  }

  function Swapped(d: Disk, present: bool): Disk
    requires Replacement in d.entries && (present ==> Config in d.entries)
  {
    if present then Exchange(d, Config, Replacement) else Rename(d, Replacement, Config)
  }

  lemma SwappingIsSafe(d: Disk, log: Log, env: Env)
    requires Safe(d, log, env) && Prepared(d, log)
    ensures Replacement in d.entries && (log.open.value.plan.before.Some? ==> Config in d.entries)
    ensures var after := Swapped(d, log.open.value.plan.before.Some?);
            Safe(after, log, env) && Exchanged(after.entries, after.versions, log.open.value.plan)
  {
  }

  function RolledBack(d: Disk, present: bool): Disk
    requires Config in d.entries && (present ==> Replacement in d.entries)
  {
    if present then Exchange(d, Config, Replacement) else Unlink(d, Config)
  }

  lemma RollingBackIsSafe(d: Disk, log: Log, env: Env)
    requires Safe(d, log, env) && log.open.Some? && Exchanged(d.entries, d.versions, log.open.value.plan)
    ensures Config in d.entries && (log.open.value.plan.before.Some? ==> Replacement in d.entries)
    ensures var after := RolledBack(d, log.open.value.plan.before.Some?);
            Safe(after, log, env) && Deciding(after, log, false)
  {
  }

  lemma RenamingMarkerIsSafe(d: Disk, log: Log, env: Env)
    requires Safe(d, log, env) && log.open.Some? && Exchanged(d.entries, d.versions, log.open.value.plan)
    requires Is(d.entries, d.versions, Committed, Text(log.open.value.plan, true))
    ensures Safe(Rename(d, Committed, Marker), Renamed(log), env)
    ensures Deciding(Rename(d, Committed, Marker), Renamed(log), true)
  {
  }

  lemma ExchangedFrame(d: Disk, after: Disk, p: Plan, name: Name)
    requires DiskOk(d) && Exchanged(d.entries, d.versions, p) && KeepsFiles(d, after)
    requires name in {Temporary, Committed}
    requires after.entries == d.entries || after.entries == d.entries[name := d.next]
    ensures Exchanged(after.entries, after.versions, p)
  {
  }

  /** The whole of a committed transaction's rename and cleanup, with no sync in between. */
  function UnsyncedCommit(d: Disk): Disk
    requires Committed in d.entries
  {
    Unlink(Unlink(Unlink(Rename(d, Committed, Marker), Replacement), Committed), Marker)
  }

  /**
   How a document that was read as committed is taken back. A process dies right after the commit
   rename, and the next one in the cleanup, which syncs nothing before its unlinks. With the marker
   gone the new document is read, and a power loss still leaves the exchange without the rename.
   */
  lemma CommitTakenBack(d: Disk, log: Log, env: Env)
    requires EnvOk(env) && Safe(d, log, env) && log.open.Some?
    requires Exchanged(d.entries, d.versions, log.open.value.plan)
    requires Is(d.entries, d.versions, Committed, Text(log.open.value.plan, true))
    ensures var now, p := UnsyncedCommit(d), log.open.value.plan;
            && Safe(now, Renamed(log), env) && Marker !in now.entries && Read(now, Config) == Some(p.after)
            && PowerLoss(now, Left(now, d.entries)) && Outcome(Left(now, d.entries), env.hash) == p.before
  {
    hide LogOk, ImageOk, Exchanged, CommittedLayout, Outcome, EnvOk, NotExchanged;
    RenamingMarkerIsSafe(d, log, env);
    CleanupIsSafe(Rename(d, Committed, Marker), Renamed(log), env);
    TakenBack(UnsyncedCommit(d), d.entries, Renamed(log), env);
  }

  lemma CleanupIsSafe(d: Disk, log: Log, env: Env)
    requires Safe(d, log, env) && Deciding(d, log, true)
    ensures var first, second := Unlink(d, Replacement), Unlink(Unlink(d, Replacement), Committed);
            && Safe(first, log, env) && Safe(second, log, env) && Safe(Unlink(second, Marker), log, env)
            && Deciding(Unlink(second, Marker), log, true)
  {
    hide Safe, Deciding;
    UnlinkIsSafe(d, log, env, true, Replacement);
    UnlinkIsSafe(Unlink(d, Replacement), log, env, true, Committed);
    UnlinkIsSafe(Unlink(Unlink(d, Replacement), Committed), log, env, true, Marker);
  }

  /** The moments of that run, from the one before the commit rename to the one after the power loss. */
  function TakenBackRun(d: Disk, log: Log): seq<Moment>
    requires Committed in d.entries
  {
    var renamed := Rename(d, Committed, Marker);
    var first, second := Unlink(renamed, Replacement), Unlink(Unlink(renamed, Replacement), Committed);
    [Moment(renamed, Renamed(log)), Moment(first, Renamed(log)), Moment(second, Renamed(log)),
     Moment(UnsyncedCommit(d), Renamed(log)), Moment(Left(UnsyncedCommit(d), d.entries), Renamed(log))]
  }

  /** Every run that has come so far can go on like that. */
  lemma CommitTakenBackIsARun(trace: seq<Moment>, d: Disk, log: Log, env: Env)
    requires EnvOk(env) && TraceOk(trace, env) && trace != [] && trace[|trace| - 1] == Moment(d, log)
    requires log.open.Some? && Exchanged(d.entries, d.versions, log.open.value.plan)
    requires Is(d.entries, d.versions, Committed, Text(log.open.value.plan, true))
    ensures TraceOk(trace + TakenBackRun(d, log), env)
  {
    LastIsSafe(trace, env);
    hide TraceOk, LogOk, Safe, EnvOk, Exchanged, Follows, TakenBackRun;
    TakenBackIsSafe(d, log, env);
    TakenBackSteps(d, log);
    TraceGoesOn(trace, env, TakenBackRun(d, log));
  }

  lemma TakenBackIsSafe(d: Disk, log: Log, env: Env)
    requires EnvOk(env) && Safe(d, log, env) && log.open.Some?
    requires Exchanged(d.entries, d.versions, log.open.value.plan)
    requires Is(d.entries, d.versions, Committed, Text(log.open.value.plan, true))
    ensures forall m :: m in TakenBackRun(d, log) ==> Safe(m.disk, m.log, env) && m.log.chain == log.chain
  {
    hide Safe, Deciding, Exchanged, EnvOk, Outcome, PowerLoss;
    RenamingMarkerIsSafe(d, log, env);
    CleanupIsSafe(Rename(d, Committed, Marker), Renamed(log), env);
    CommitTakenBack(d, log, env);
    PowerLossIsSafe(UnsyncedCommit(d), Renamed(log), env, Left(UnsyncedCommit(d), d.entries));
  }

  lemma TakenBackSteps(d: Disk, log: Log)
    requires DiskOk(d) && Committed in d.entries
    ensures var run := TakenBackRun(d, log);
            && Follows(Moment(d, log), run[0])
            && forall i, j :: 0 <= i < j < |run| && j == i + 1 ==> Follows(run[i], run[j])
  {
    var m := TakenBackRun(d, log);
    assert Called(Moment(d, log), RenameCall(Committed, Marker), m[0]);
    assert Called(m[0], UnlinkCall(Replacement), m[1]);
    assert Called(m[1], UnlinkCall(Committed), m[2]);
    assert Called(m[2], UnlinkCall(Marker), m[3]);
    assert PowerLoss(m[3].disk, m[4].disk);
  }

  lemma LastIsSafe(trace: seq<Moment>, env: Env)
    requires TraceOk(trace, env) && trace != []
    ensures Safe(trace[|trace| - 1].disk, trace[|trace| - 1].log, env)
    ensures DiskOk(trace[|trace| - 1].disk)
  {
  }

  lemma {:induction false} TraceGoesOn(trace: seq<Moment>, env: Env, more: seq<Moment>)
    requires TraceOk(trace, env) && trace != []
    requires forall m :: m in more ==> Safe(m.disk, m.log, env) && m.log.chain == trace[|trace| - 1].log.chain
    requires forall i, j :: 0 <= i < j < |more| && j == i + 1 ==> Follows(more[i], more[j])
    requires more != [] ==> Follows(trace[|trace| - 1], more[0])
    ensures TraceOk(trace + more, env)
    decreases |more|
  {
    hide TraceOk, Safe, Follows;
    if more == [] {
      assert trace + more == trace;
    } else {
      TraceGrows(trace, env, more[0]);
      TraceGoesOn(trace + [more[0]], env, more[1..]);
      assert trace + [more[0]] + more[1..] == trace + more;
    }
  }

  lemma TakenBack(now: Disk, e: Dir, log: Log, env: Env)
    requires EnvOk(env) && Safe(now, log, env) && Deciding(now, log, true) && log.open.Some? && e in now.images
    requires Exchanged(e, now.versions, log.open.value.plan)
    ensures Read(now, Config) == Some(log.open.value.plan.after)
    ensures PowerLoss(now, Left(now, e)) && Outcome(Left(now, e), env.hash) == log.open.value.plan.before
  {
    var p, left := log.open.value.plan, Left(now, e);
    DecidesCommitted(now, p, env.hash);
    LeftByPowerLoss(now, e);
    PowerLossIsSafe(now, log, env, left);
    forall n, bytes | Is(e, now.versions, n, bytes) ensures Is(e, left.versions, n, bytes) {
      assert left.data[e[n]] in now.versions[e[n]];
    }
    CertainContentsStay(e, now.versions, left.versions, p);
    DecidesExchanged(left, p, env.hash);
  }

  // ---------------------------------------------------------------- directory updates out of order

  /**
   The power goes during the cleanup that recovery runs on a committed transaction, and its first
   unlink is kept, while the file system may have lost updates made before it.
   */
  ghost predicate LateUnlink(d: Disk, e: Dir, after: Disk) {
    e in d.images && PowerLoss(d.(entries := e - {Replacement}, images := {e - {Replacement}}), after)
  }

  /** Recovery ends with one of the two documents, or refuses with the old one in place. */
  ghost predicate RecoversWell(d: Disk, p: Plan, hash: string -> string) {
    var action := DecideDisk(d, hash);
    if action.Refuse? then Read(d, Config) == p.before
    else Outcome(d, hash) in {p.before, Some(p.after)}
  }

  /**
   The failing case: the exchange is on the disk and the commit rename is not, but the unlink is.
   Recovery refuses, with the new document in place and the old one gone.
   */
  lemma LostRollbackCopy(d: Disk, p: Plan, hash: string -> string)
    requires DiskOk(d) && PlanOk(p, hash) && p.before.Some? && p.before != Some(p.after)
    requires Is(d.entries, d.versions, Marker, Text(p, false)) && Is(d.entries, d.versions, Config, p.after)
    requires Replacement !in d.entries
    ensures DecideDisk(d, hash).Refuse? && Read(d, Config) == Some(p.after) != p.before
    ensures !RecoversWell(d, p, hash)
  {
    ReadIs(d, Marker, Text(p, false));
    ReadIs(d, Config, p.after);
    MarkerText(p, hash, false, Text(p, false));
  }

  /** Without the replacement, the other layouts recover. */
  lemma OthersRecover(d: Disk, e: Dir, p: Plan, hash: string -> string)
    requires DiskOk(d) && PlanOk(p, hash) && d.entries == e - {Replacement}
    requires CommittedLayout(e, d.versions, p) || (Exchanged(e, d.versions, p) && p.before in {None, Some(p.after)})
    ensures RecoversWell(d, p, hash)
  {
    if CommittedLayout(e, d.versions, p) {
      UnlinkKeeps(e, d.versions, p, Replacement);
      DecidesCommitted(d, p, hash);
      ReadNone(d, Marker);
    } else if p.before.None? {
      assert e - {Replacement} == e;
      DecidesExchanged(d, p, hash);
    } else {
      ReadIs(d, Marker, Text(p, false));
      ReadIs(d, Config, p.after);
      MarkerText(p, hash, false, Text(p, false));
    }
  }

  /** A power loss leaves contents that were certain as they were. */
  lemma CertainContentsStay(e: Dir, v: Contents, w: Contents, p: Plan)
    requires forall n, bytes :: Is(e, v, n, bytes) ==> Is(e, w, n, bytes)
    ensures CommittedLayout(e, v, p) ==> CommittedLayout(e, w, p)
    ensures Exchanged(e, v, p) ==> Exchanged(e, w, p)
  {
  }

  lemma LateUnlinkKeeps(d: Disk, e: Dir, after: Disk, p: Plan)
    requires DiskOk(d) && LateUnlink(d, e, after)
    ensures DiskOk(after) && after.entries == e - {Replacement}
    ensures CommittedLayout(e, d.versions, p) ==> CommittedLayout(e, after.versions, p)
    ensures Exchanged(e, d.versions, p) ==> Exchanged(e, after.versions, p)
  {
    forall n, bytes | Is(e, d.versions, n, bytes) ensures Is(e, after.versions, n, bytes) {
      assert after.data[e[n]] in d.versions[e[n]];
    }
    CertainContentsStay(e, d.versions, after.versions, p);
  }

  /** What the disk may hold in that case. */
  function Unlucky(d: Disk, e: Dir): Disk {
    Left(d, e - {Replacement})
  }

  lemma UnluckyHappens(d: Disk, e: Dir, p: Plan, hash: string -> string)
    requires DiskOk(d) && e in d.images && PlanOk(p, hash) && Exchanged(e, d.versions, p)
    requires p.before !in {None, Some(p.after)}
    ensures LateUnlink(d, e, Unlucky(d, e)) && !RecoversWell(Unlucky(d, e), p, hash)
  {
    LateUnlinkKeeps(d, e, Unlucky(d, e), p);
    LostRollbackCopy(Unlucky(d, e), p, hash);
  }

  /**
   If a power loss may also lose directory updates made before one that it keeps, the first step of
   a committed cleanup is recovered from, whatever is left, exactly when the commit rename is already
   durable in every image, or there is no old document to lose.
   */
  lemma ReorderedCleanupIsSafeIff(d: Disk, p: Plan, hash: string -> string)
    requires DiskOk(d) && PlanOk(p, hash)
    requires forall e :: e in d.images ==> Exchanged(e, d.versions, p) || CommittedLayout(e, d.versions, p)
    ensures (forall e, after :: LateUnlink(d, e, after) ==> RecoversWell(after, p, hash))
            <==> (|| p.before in {None, Some(p.after)}
                  || forall e :: e in d.images ==> CommittedLayout(e, d.versions, p))
  {
    hide RecoversWell, DiskOk, PlanOk, LateUnlink;
    if p.before in {None, Some(p.after)} || forall e :: e in d.images ==> CommittedLayout(e, d.versions, p) {
      forall e, after | LateUnlink(d, e, after) ensures RecoversWell(after, p, hash) {
        LateUnlinkKeeps(d, e, after, p);
        ImageOfLateUnlink(d, e, after);
        OthersRecover(after, e, p, hash);
      }
    } else {
      var e :| e in d.images && !CommittedLayout(e, d.versions, p);
      UnluckyHappens(d, e, p, hash);
    }
  }

  lemma ImageOfLateUnlink(d: Disk, e: Dir, after: Disk)
    requires LateUnlink(d, e, after)
    ensures e in d.images
  {
  }

  // ---------------------------------------------------------------- the store

  datatype Recovery = Recovered | Refused | IoFailed

  datatype GrantStatus = Matched | Denied | Changed | NotValid | Unavailable

  datatype Status =
    Applied | Conflict | Invalid | IoError | TimedOut | Cancelled | PreconditionFailed | DurabilityUnknown

  /** The identity a caller planned against names this document. */
  ghost predicate Names(expected: Identity, doc: Option<string>, env: Env) {
    match doc
    case None => expected.Missing?
    case Some(bytes) => expected.Known? && expected.digest == env.hash(bytes)
  }

  function PlanFor(env: Env, current: Option<string>, bytes: string): Plan {
    Plan(current, bytes, if current.Some? then env.hash(current.value) else "", env.hash(bytes))
  }

  lemma PlanForOk(env: Env, current: Option<string>, m: Mutation)
    requires EnvOk(env) && env.plan(current, m).Some? && CollisionFree(env, current, m)
    ensures PlanOk(PlanFor(env, current, env.plan(current, m).value), env.hash)
  {
  }

  /** After recovery nothing is open and config.toml is the head of the history. */
  lemma AtRest(d: Disk, log: Log, env: Env)
    requires Safe(d, log, env) && log.open.None?
    ensures Read(d, Config) == Head(log)
    ensures Names(IdentityOf(env, d), Head(log), env)
  {
    assert ImageOk(d.entries, d.versions, log);
    ReadHolds(d, Config, Head(log));
  }

  /** The history as recovery leaves it. */
  ghost function Recover(d: Disk, log: Log): Log {
    Closed(log, IsCommitted(d, log))
  }

  lemma RecoveredHead(d: Disk, log: Log, env: Env, m: Mutation)
    requires EnvOk(env) && Safe(d, log, env) && !Stuck(d, log) && CollisionFreeOn(env, d, m)
    ensures CollisionFree(env, Head(Recover(d, log)), m)
  {
    RecoveryIsExact(d, log, env);
  }

  /** What publishing a mutation may have done to the history: nothing, opened it, or added its one link. */
  ghost predicate Published(before: Log, after: Log, plan: Plan, m: Mutation) {
    || after == before
    || after == Begun(before, plan, m)
    || after == Renamed(Begun(before, plan, m))
    || after == Closed(Begun(before, plan, m), true)
  }

  /**
   What one call of `mutate` may have done, `recovered` being the history as its own recovery
   leaves it. It never writes unless the caller's identity names the head of that history, and
   what it then writes is its own mutation of that head.
   */
  ghost predicate MutationOutcome(status: Status, before: Log, recovered: Log, after: Log,
      expected: Identity, m: Mutation, env: Env) {
    var planned := env.plan(Head(recovered), m);
    if after == before || after == recovered then true
    else
      && status in {Applied, IoError, DurabilityUnknown}
      && Names(expected, Head(recovered), env)
      && planned.Some?
      && Published(recovered, after, PlanFor(env, Head(recovered), planned.value), m)
  }

  /** The identity of config.toml once recovery has been through. */
  function IdentityAfter(env: Env, d: Disk): Identity {
    match DecideDisk(d, env.hash)
    case SwapBack =>
      if Replacement in d.entries && d.entries[Replacement] in d.data
      then Known(env.hash(d.data[d.entries[Replacement]]), d.entries[Replacement])
      else Missing
    case RemoveConfig => Missing
    case _ => IdentityOf(env, d)
  }

  /** The name checks of `mutate`. */
  predicate NamesOk(m: Mutation) {
    ValidAccountName(m.account) && (m.reassignDefault.Some? ==> ValidAccountName(m.reassignDefault.value))
  }

  /** What `mutate` returns when nothing goes wrong on the way. */
  ghost function Uninterrupted(env: Env, d: Disk, log: Log, expected: Identity, m: Mutation, admits: bool): Status {
    if !NamesOk(m) then Invalid
    else if Stuck(d, log) then DurabilityUnknown
    else Edited(env, Head(Recover(d, log)), IdentityAfter(env, d), expected, m, admits)
  }

  /** What it then returns for the document recovery has left. */
  function Edited(env: Env, current: Option<string>, identity: Identity, expected: Identity, m: Mutation,
      admits: bool): Status {
    if env.grants(current, m.account).None? then Invalid
    else if identity != expected then if admits then Applied else Conflict
    else if env.plan(current, m).None? then Invalid
    else Applied
  }

  lemma NothingOpen(log: Log, committed: bool)
    ensures Closed(log, committed).open.None?
  {
  }

  /** `Applied` is only returned with the change durable, or when the caller accepts what is already there. */
  ghost predicate AppliedOutcome(d: Disk, recovered: Log, after: Log, expected: Identity, m: Mutation, env: Env) {
    && d.images == {d.entries} && Marker !in d.entries && after.open.None?
    && (|| (after == recovered && IdentityOf(env, d) != expected)
        || (after.chain == recovered.chain + [env.plan(Head(recovered), m)] && after.links == recovered.links + [m]))
  }

  /** The steps a mutation makes durable one by one, before it goes on to the next. */
  ghost predicate DurablyPrepared(m: Moment, plan: Plan) {
    && m.disk.images == {m.disk.entries} && NotExchanged(m.disk.entries, m.disk.versions, plan)
    && Is(m.disk.entries, m.disk.versions, Marker, Text(plan, false))
  }

  ghost predicate DurablyExchanged(m: Moment, plan: Plan) {
    m.disk.images == {m.disk.entries} && Exchanged(m.disk.entries, m.disk.versions, plan)
  }

  ghost predicate DurablyCommitted(m: Moment, plan: Plan) {
    && m.disk.images == {m.disk.entries} && CommittedLayout(m.disk.entries, m.disk.versions, plan)
    && Marker in m.disk.entries
  }

  /** From this moment on, each of the three was durable before the next began. */
  ghost predicate WrittenInOrder(trace: seq<Moment>, from: nat, plan: Plan) {
    exists i, j, k ::
      && from <= i < j < k < |trace|
      && DurablyPrepared(trace[i], plan) && DurablyExchanged(trace[j], plan) && DurablyCommitted(trace[k], plan)
  }

  /** config.toml is back, durably, while the pending marker still tells recovery to put it back. */
  ghost predicate DurablyRestored(m: Moment, env: Env, identity: Identity) {
    && m.disk.images == {m.disk.entries} && Marker in m.disk.entries
    && IdentityOf(env, m.disk) == identity
  }

  /** From this moment on, the marker is gone only where the files it vouches for are gone too. */
  ghost predicate MarkerGoesLast(trace: seq<Moment>, from: nat) {
    forall k :: from <= k < |trace| && Marker !in trace[k].disk.entries ==>
                  trace[k].disk.entries.Keys !! {Replacement, Committed}
  }

  lemma DecidedByMarker(d: Disk, hash: string -> string)
    ensures Marker !in d.entries ==> DecideDisk(d, hash).RemoveOrphans?
  {
  }

  lemma RenamedMarkerIsThere(d: Disk)
    requires Committed in d.entries
    ensures Marker in Rename(d, Committed, Marker).entries
  {
  }

  lemma IdentityStays(env: Env, d: Disk, after: Disk, name: Name)
    requires DiskOk(d) && KeepsFiles(d, after) && name != Config
    requires after.entries == d.entries || after.entries == d.entries[name := d.next]
    ensures IdentityOf(env, after) == IdentityOf(env, d)
  {
  }

  /** Removing the transaction's own entries leaves config.toml what it is. */
  lemma CleanupKeepsIdentity(env: Env, d: Disk, after: Disk)
    requires after.data == d.data && after.entries == d.entries - {Replacement, Committed, Marker}
    ensures IdentityOf(env, after) == IdentityOf(env, d)
  {
  }

  class Store {
    const env: Env
    var disk: Disk
    ghost var log: Log
    ghost var trace: seq<Moment>
    ghost var faults: nat  // what has gone wrong outside: failed calls, refusals, deadlines

    ghost predicate Valid()
      reads this
    {
      && EnvOk(env) && Safe(disk, log, env)
      && trace != [] && trace[|trace| - 1] == Moment(disk, log)
      && TraceOk(trace, env)
    }

    /** A directory without a transaction, holding any document or none. */
    constructor (env: Env, disk: Disk)
      requires EnvOk(env) && DiskOk(disk) && disk.images == {disk.entries}
      requires Settled(disk.entries, disk.versions, Read(disk, Config))
      ensures Valid() && this.env == env && this.disk == disk
      ensures log == Log([Read(disk, Config)], [], None) && trace == [Moment(disk, log)]
    {
      this.env := env;
      this.disk := disk;
      log := Log([Read(disk, Config)], [], None);
      trace := [Moment(disk, Log([Read(disk, Config)], [], None))];
    }

    /** Something outside may go wrong: a call fails, a caller refuses, a deadline passes. */
    method Trouble() returns (happened: bool)
      modifies this`faults
      ensures faults == if happened then old(faults) + 1 else old(faults)
    {
      happened := *;
      if happened {
        faults := faults + 1;
      }
    }

    /** One system call: it takes effect, or fails and changes nothing. */
    method Attempt(call: Call, ghost nextLog: Log) returns (ok: bool)
      requires Valid() && Possible(disk, call)
      requires Called(Moment(disk, log), call, Moment(Perform(disk, call), nextLog))
      requires Safe(Perform(disk, call), nextLog, env) && log.chain <= nextLog.chain
      modifies this
      ensures Valid() && old(trace) <= trace
      ensures ok ==> disk == Perform(old(disk), call) && log == nextLog && trace == old(trace) + [Moment(disk, log)]
      ensures !ok ==> disk == old(disk) && log == old(log) && trace == old(trace)
      ensures faults == if ok then old(faults) else old(faults) + 1
    {
      hide TraceOk, Safe, EnvOk, Perform, Possible, Called;
      var failed := Trouble();
      if failed {
        return false;
      }
      TraceGrows(trace, env, Moment(Perform(disk, call), nextLog));
      disk := Perform(disk, call);
      log := nextLog;
      trace := trace + [Moment(disk, nextLog)];
      return true;
    }

    method UnlinkForCleanup(name: Name, ghost committed: bool) returns (ok: bool)
      requires Valid() && Deciding(disk, log, committed) && name != Config
      modifies this
      ensures Valid() && old(trace) <= trace && log == old(log) && Deciding(disk, log, committed)
      ensures disk == if ok then Unlink(old(disk), name) else old(disk)
      ensures trace == if ok then old(trace) + [Moment(disk, log)] else old(trace)
      ensures old(faults) <= faults && (faults == old(faults) ==> ok)
    {
      hide TraceOk, LogOk, ImageOk, DiskOk, EnvOk;
      UnlinkIsSafe(disk, log, env, committed, name);
      ok := Attempt(UnlinkCall(name), log);
    }

    /** Syncs the directory and settles the open transaction. */
    method Settle(ghost committed: bool) returns (ok: bool)
      requires Valid() && Marker !in disk.entries && Deciding(disk, log, committed)
      modifies this
      ensures Valid() && old(trace) <= trace
      ensures disk == if ok then SyncDirectory(old(disk)) else old(disk)
      ensures log == if ok then Closed(old(log), committed) else old(log)
      ensures trace == if ok then old(trace) + [Moment(disk, log)] else old(trace)
      ensures old(faults) <= faults && (faults == old(faults) ==> ok)
    {
      hide TraceOk, LogOk, ImageOk, DiskOk, EnvOk;
      ClosingIsSafe(disk, log, env, committed);
      ok := Attempt(SyncDirectoryCall, Closed(log, committed));
    }

    /** `cleanup_transaction`: the replacement goes first, the marker last. */
    method CleanupTransaction(ghost committed: bool) returns (ok: bool)
      requires Valid() && Deciding(disk, log, committed)
      modifies this
      ensures Valid() && old(trace) <= trace
      ensures log == if ok then Closed(old(log), committed) else old(log)
      ensures ok ==>
                disk.images == {disk.entries} && disk.entries == old(disk.entries) - {Replacement, Committed, Marker}
      ensures disk.data == old(disk.data) && disk.versions == old(disk.versions)
      ensures !ok ==> Deciding(disk, log, committed)
      ensures Marker in old(disk.entries) ==> MarkerGoesLast(trace, |old(trace)|)
      ensures old(faults) <= faults && (faults == old(faults) ==> ok)
      ensures ok ==> IdentityOf(env, disk) == IdentityOf(env, old(disk))
    {
      hide TraceOk, LogOk, ImageOk, DiskOk, EnvOk, Deciding, Safe;
      ok := UnlinkForCleanup(Replacement, committed);
      if ok { ok := UnlinkForCleanup(Committed, committed); }
      if ok { ok := UnlinkForCleanup(Marker, committed); }
      if ok {
        ok := Settle(committed);
        assert disk.entries == old(disk.entries) - {Replacement, Committed, Marker};
        CleanupKeepsIdentity(env, old(disk), disk);
      }
    }

    /** No marker: whatever else an earlier crash left is an orphan. */
    method RemoveOrphanFiles(ghost committed: bool) returns (ok: bool)
      requires Valid() && Marker !in disk.entries && Deciding(disk, log, committed)
      modifies this
      ensures Valid() && old(trace) <= trace
      ensures log == if ok then Closed(old(log), committed) else old(log)
      ensures ok ==>
                disk.images == {disk.entries} && disk.entries == old(disk.entries) - {Replacement, Committed, Marker}
      ensures disk.data == old(disk.data) && disk.versions == old(disk.versions)
      ensures old(faults) <= faults && (faults == old(faults) ==> ok)
      ensures ok ==> IdentityOf(env, disk) == IdentityOf(env, old(disk))
    {
      hide TraceOk, LogOk, ImageOk, DiskOk, EnvOk, Deciding, Safe;
      ok := UnlinkForCleanup(Replacement, committed);
      if ok { ok := UnlinkForCleanup(Committed, committed); }
      if ok {
        ok := Settle(committed);
        assert disk.entries == old(disk.entries) - {Replacement, Committed, Marker};
        CleanupKeepsIdentity(env, old(disk), disk);
      }
    }

    /** Puts config.toml back, where the decision asks for it. */
    method RestoreConfig(action: Action) returns (ok: bool)
      requires Valid() && action == DecideDisk(disk, env.hash) && action in {SwapBack, RemoveConfig, KeepOld}
      modifies this
      ensures Valid() && old(trace) <= trace && log == old(log) && !IsCommitted(old(disk), log)
      ensures ok ==> Deciding(disk, log, false)
      ensures disk.data == old(disk.data) && disk.versions == old(disk.versions)
      ensures old(faults) <= faults && (faults == old(faults) ==> ok)
      ensures ok ==> IdentityOf(env, disk) == IdentityAfter(env, old(disk)) && Marker in disk.entries
    {
      hide TraceOk, LogOk, ImageOk, DiskOk, EnvOk, Deciding, Safe, Decide, Uncommitted;
      DecidedByMarker(disk, env.hash);
      match action {
        case SwapBack =>
          SwapBackIsSafe(disk, log, env);
          ok := Attempt(ExchangeCall(Config, Replacement), log);
        case RemoveConfig =>
          RemoveConfigIsSafe(disk, log, env);
          ok := Attempt(UnlinkCall(Config), log);
        case _ =>
          InPlaceIsDeciding(disk, log, env);
          ok := true;
      }
    }

    /** `fsync` of the directory, deciding nothing. */
    method SyncNow() returns (ok: bool)
      requires Valid()
      modifies this
      ensures Valid() && old(trace) <= trace && log == old(log)
      ensures disk == if ok then SyncDirectory(old(disk)) else old(disk)
      ensures old(faults) <= faults && (faults == old(faults) ==> ok)
      ensures IdentityOf(env, disk) == IdentityOf(env, old(disk))
      ensures ok ==> |trace| > |old(trace)|
    {
      ok := Attempt(SyncDirectoryCall, log);
    }

    /** The pending branches of `recover_transaction`: config.toml first, durably, and then the rest. */
    method UndoPending(action: Action) returns (ok: bool)
      requires Valid() && action == DecideDisk(disk, env.hash) && action in {SwapBack, RemoveConfig, KeepOld}
      modifies this
      ensures Valid() && old(trace) <= trace && !IsCommitted(old(disk), old(log))
      ensures log == if ok then Closed(old(log), false) else old(log)
      ensures ok ==> disk.images == {disk.entries} && disk.entries.Keys !! {Replacement, Committed, Marker}
      ensures ok ==> IdentityOf(env, disk) == IdentityAfter(env, old(disk))
      ensures ok ==> exists k :: |old(trace)| <= k < |trace|
                                 && DurablyRestored(trace[k], env, IdentityAfter(env, old(disk)))
                                 && MarkerGoesLast(trace, k + 1)
      ensures old(faults) <= faults && (faults == old(faults) ==> ok)
    {
      hide TraceOk, LogOk, ImageOk, DiskOk, EnvOk, Safe, Decide, IsCommitted, Closed, NotExchanged,
          CommittedLayout, IdentityOf, IdentityAfter, MarkerGoesLast;
      ok := RestoreConfig(action);
      if !ok { return; }
      ok := SyncNow();
      if !ok { return; }
      ghost var k := |trace| - 1;
      assert DurablyRestored(trace[k], env, IdentityAfter(env, old(disk)));
      ok := CleanupTransaction(false);
    }

    /**
     `recover_transaction`. The decision is made on the three files as they are read; a read or a
     later system call may fail, which is not a refusal.
     */
    method RecoverTransaction() returns (outcome: Recovery)
      requires Valid()
      modifies this
      ensures Valid() && old(trace) <= trace
      ensures outcome.Recovered? ==> log == Closed(old(log), IsCommitted(old(disk), old(log)))
      ensures outcome.Recovered? ==>
              disk.images == {disk.entries} && disk.entries.Keys !! {Replacement, Committed, Marker}
      ensures !outcome.Recovered? ==> log == old(log)
      ensures outcome.Refused? ==> disk == old(disk) && trace == old(trace)
      ensures outcome.Refused? ==> Stuck(disk, log)
      ensures Stuck(old(disk), old(log)) ==> !outcome.Recovered?
      ensures outcome.Recovered? ==> IdentityOf(env, disk) == IdentityAfter(env, old(disk))
      ensures old(faults) <= faults
      ensures faults == old(faults) ==> outcome == if Stuck(old(disk), old(log)) then Refused else Recovered
    {
      hide TraceOk, LogOk, ImageOk, DiskOk, EnvOk, Safe, Decide, IsCommitted, Stuck, Closed, NotExchanged,
          CommittedLayout, IdentityOf;
      var failed := Trouble();
      if failed {
        return IoFailed;
      }
      RecoveryIsExact(disk, log, env);
      var action := DecideDisk(disk, env.hash);
      var ok;
      match action {
        case Refuse =>
          return Refused;
        case RemoveOrphans =>
          InPlaceIsDeciding(disk, log, env);
          ok := RemoveOrphanFiles(IsCommitted(disk, log));
        case FinishCommit =>
          InPlaceIsDeciding(disk, log, env);
          ok := CleanupTransaction(true);
        case _ =>
          ok := UndoPending(action);
      }
      return if ok then Recovered else IoFailed;
    }

    // -------------------------------------------------------------- writing a file

    method CreateFile(name: Name, ghost bytes: string) returns (ok: bool)
      requires Valid() && Writable(disk, log, name, bytes)
      modifies this
      ensures Valid() && old(trace) <= trace && log == old(log) && Writable(disk, log, name, bytes)
      ensures ok ==> disk == Create(old(disk), name) && Private(disk, name, old(disk).next)
      ensures !ok ==> disk == old(disk)
      ensures old(faults) <= faults && (faults == old(faults) ==> ok)
    {
      hide TraceOk, LogOk, ImageOk, DiskOk, EnvOk, Writable, Preparing;
      CreateIsSafe(disk, log, env, name, bytes);
      ok := Attempt(CreateCall(name), log);
    }

    /** One `write`: the file now holds a longer prefix, or the call fails. */
    method WriteUpTo(name: Name, bytes: string, count: nat) returns (ok: bool)
      requires Valid() && Writable(disk, log, name, bytes) && count <= |bytes|
      requires name in disk.entries && Private(disk, name, disk.entries[name])
      requires forall s :: s in disk.versions[disk.entries[name]] ==> s <= bytes
      modifies this
      ensures Valid() && old(trace) <= trace && log == old(log) && Writable(disk, log, name, bytes)
      ensures disk == if ok then Write(old(disk), old(disk).entries[name], bytes[..count]) else old(disk)
      ensures old(faults) <= faults && (faults == old(faults) ==> ok)
    {
      hide TraceOk, LogOk, ImageOk, EnvOk, Writable, Preparing;
      RewriteIsSafe(disk, log, env, name, bytes, Write(disk, disk.entries[name], bytes[..count]));
      ok := Attempt(WriteCall(disk.entries[name], bytes[..count]), log);
    }

    /** `write_all`: any number of partial writes. */
    method WriteAll(name: Name, bytes: string, ghost start: Disk) returns (ok: bool)
      requires Valid() && Writable(disk, log, name, bytes) && DiskOk(start) && Growing(start, disk, name, bytes, 0)
      modifies this
      ensures Valid() && old(trace) <= trace && log == old(log) && Writable(disk, log, name, bytes)
      ensures exists written :: Growing(start, disk, name, bytes, written)
      ensures ok ==> Growing(start, disk, name, bytes, |bytes|)
      ensures old(faults) <= faults && (faults == old(faults) ==> ok)
    {
      hide TraceOk, LogOk, ImageOk, EnvOk, Writable, Preparing, Safe, KeepsFiles, DiskOk;
      ok := true;
      var offset := 0;
      while offset < |bytes|
        invariant offset <= |bytes| && ok
        invariant Valid() && old(trace) <= trace && log == old(log) && Writable(disk, log, name, bytes)
        invariant Growing(start, disk, name, bytes, offset) && old(faults) <= faults
      {
        var count :| 1 <= count <= |bytes| - offset;
        GrowingContinues(start, disk, name, bytes, offset, offset + count);
        ok := WriteUpTo(name, bytes, offset + count);
        if !ok { return; }
        offset := offset + count;
      }
    }

    /** `fsync` of the file itself. */
    method SyncContents(name: Name, ghost bytes: string) returns (ok: bool)
      requires Valid() && Writable(disk, log, name, bytes)
      requires name in disk.entries && Private(disk, name, disk.entries[name])
      requires disk.data[disk.entries[name]] <= bytes
      modifies this
      ensures Valid() && old(trace) <= trace && log == old(log) && Writable(disk, log, name, bytes)
      ensures disk == if ok then SyncFile(old(disk), old(disk).entries[name]) else old(disk)
      ensures old(faults) <= faults && (faults == old(faults) ==> ok)
    {
      hide TraceOk, LogOk, ImageOk, EnvOk, Writable, Preparing;
      RewriteIsSafe(disk, log, env, name, bytes, SyncFile(disk, disk.entries[name]));
      ok := Attempt(SyncFileCall(disk.entries[name]), log);
    }

    /** `write_all` and `fsync` of a newly created file. */
    method WriteFile(name: Name, bytes: string) returns (ok: bool)
      requires Valid() && Writable(disk, log, name, bytes)
      modifies this
      ensures Valid() && old(trace) <= trace && log == old(log) && Writable(disk, log, name, bytes)
      ensures disk.entries == old(disk.entries) || disk.entries == old(disk.entries)[name := old(disk.next)]
      ensures KeepsFiles(old(disk), disk) && AddsOneImage(old(disk), disk)
      ensures ok ==> Is(disk.entries, disk.versions, name, bytes)
      ensures old(faults) <= faults && (faults == old(faults) ==> ok)
    {
      hide TraceOk, LogOk, ImageOk, EnvOk, Writable, Preparing, Private;
      ghost var start := disk;
      ok := CreateFile(name, bytes);
      if !ok { return; }
      GrowingStarts(start, name, bytes);
      ok := WriteAll(name, bytes, start);
      if !ok { return; }
      GrowingEnds(start, disk, name, bytes);
      ok := SyncContents(name, bytes);
    }

    // -------------------------------------------------------------- mutate

    /** A transaction begins: from here on a marker may exist. */
    method Begin(ghost plan: Plan, ghost m: Mutation)
      requires Valid() && log.open.None?
      requires PlanOk(plan, env.hash) && plan.before == Head(log) && env.plan(Head(log), m) == Some(plan.after)
      requires Is(disk.entries, disk.versions, Replacement, plan.after)
      modifies this
      ensures Valid() && old(trace) <= trace && disk == old(disk) && log == Begun(old(log), plan, m)
              && Preparing(disk, log)
      ensures faults == old(faults)
    {
      hide TraceOk, LogOk, ImageOk, DiskOk, EnvOk;
      BeginningIsSafe(disk, log, env, plan, m);
      TraceGrows(trace, env, Moment(disk, Begun(log, plan, m)));
      log := Begun(log, plan, m);
      trace := trace + [Moment(disk, log)];
    }

    /** Makes the pending marker durable; a failure cleans up. */
    method Prepare(plan: Plan, ghost m: Mutation) returns (ok: bool)
      requires Valid() && log.open.None?
      requires PlanOk(plan, env.hash) && plan.before == Head(log) && env.plan(Head(log), m) == Some(plan.after)
      requires Is(disk.entries, disk.versions, Replacement, plan.after)
      modifies this
      ensures Valid() && old(trace) <= trace
      ensures ok ==> log == Begun(old(log), plan, m) && Prepared(disk, log) && disk.images == {disk.entries}
      ensures !ok ==> log == old(log) || log == Begun(old(log), plan, m)
      ensures old(faults) <= faults && (faults == old(faults) ==> ok)
    {
      hide TraceOk, LogOk, ImageOk, EnvOk, KeepsFiles, Prepared, Deciding, NotExchanged;
      Begin(plan, m);
      ok := WriteFile(Marker, Text(plan, false));
      if ok { ok := SyncNow(); }
      PreparingIsDeciding(disk, log);
      if !ok {
        var cleaned := CleanupTransaction(false);
      }
    }

    /** The commit rename: an exchange, or a plain rename when there was no document. */
    method SwapIn(present: bool) returns (ok: bool)
      requires Valid() && Prepared(disk, log) && present == log.open.value.plan.before.Some?
      modifies this
      ensures Valid() && old(trace) <= trace && log == old(log)
      ensures ok ==> Exchanged(disk.entries, disk.versions, log.open.value.plan)
      ensures !ok ==> disk == old(disk)
      ensures old(faults) <= faults && (faults == old(faults) ==> ok)
    {
      hide TraceOk, LogOk, ImageOk, EnvOk, Safe, Prepared, Exchanged;
      SwappingIsSafe(disk, log, env);
      ok := Attempt(if present then ExchangeCall(Config, Replacement) else RenameCall(Replacement, Config), log);
    }

    method RollBack(present: bool) returns (ok: bool)
      requires Valid() && log.open.Some? && Exchanged(disk.entries, disk.versions, log.open.value.plan)
      requires present == log.open.value.plan.before.Some?
      modifies this
      ensures Valid() && old(trace) <= trace && log == old(log)
      ensures ok ==> Deciding(disk, log, false) && disk.images == {disk.entries}
      ensures old(faults) <= faults && (faults == old(faults) ==> ok)
    {
      hide TraceOk, LogOk, ImageOk, EnvOk, Safe, NotExchanged, CommittedLayout, Exchanged;
      RollingBackIsSafe(disk, log, env);
      ok := Attempt(if present then ExchangeCall(Config, Replacement) else UnlinkCall(Config), log);
      if ok {
        ok := SyncNow();
      }
    }

    /** Writes the committed marker, renames it over the pending one, makes that durable and cleans up. */
    method Finalize(plan: Plan) returns (ok: bool)
      requires Valid() && log.open.Some? && log.open.value.plan == plan && Exchanged(disk.entries, disk.versions, plan)
      modifies this
      ensures Valid() && old(trace) <= trace
      ensures ok ==> log == Closed(old(log), true) && disk.images == {disk.entries} && Marker !in disk.entries
      ensures !ok ==> log == old(log) || log == Renamed(old(log))
      ensures ok ==> exists k :: |old(trace)| <= k < |trace| && DurablyCommitted(trace[k], plan)
      ensures old(faults) <= faults && (faults == old(faults) ==> ok)
    {
      hide TraceOk, LogOk, ImageOk, EnvOk, KeepsFiles, NotExchanged, CommittedLayout, Exchanged, DiskOk, IdentityOf,
          MarkerGoesLast;
      ghost var start := disk;
      ok := WriteFile(Committed, Text(plan, true));
      if !ok { return; }
      ExchangedFrame(start, disk, plan, Committed);
      RenamingMarkerIsSafe(disk, log, env);
      RenamedMarkerIsThere(disk);
      ok := Attempt(RenameCall(Committed, Marker), Renamed(log));
      if !ok { return; }
      ok := SyncNow();
      if !ok { return; }
      ghost var k := |trace| - 1;
      assert DurablyCommitted(trace[k], plan);
      ok := CleanupTransaction(true);
    }

    /** From the pending marker to the end of cleanup. */
    method Publish(plan: Plan, ghost m: Mutation) returns (status: Status)
      requires Valid() && log.open.None?
      requires PlanOk(plan, env.hash) && plan.before == Head(log) && env.plan(Head(log), m) == Some(plan.after)
      requires Is(disk.entries, disk.versions, Replacement, plan.after)
      modifies this
      ensures Valid() && old(trace) <= trace && Published(old(log), log, plan, m)
      ensures status in {Applied, IoError, DurabilityUnknown}
      ensures status.Applied? ==> log == Closed(Begun(old(log), plan, m), true)
      ensures status.Applied? ==> disk.images == {disk.entries} && Marker !in disk.entries
      ensures status.IoError? ==> log == old(log) || log == Begun(old(log), plan, m)
      ensures old(faults) <= faults && (faults == old(faults) ==> status.Applied?)
      ensures status.Applied? ==> WrittenInOrder(trace, |old(trace)|, plan)
    {
      hide TraceOk, LogOk, ImageOk, EnvOk, Safe, NotExchanged, CommittedLayout, Exchanged, PlanOk, Is, IdentityOf,
          MarkerGoesLast;
      var present := plan.before.Some?;
      var ok := Prepare(plan, m);
      if !ok { return IoError; }
      ghost var i := |trace| - 1;
      assert DurablyPrepared(trace[i], plan);
      var changed := Trouble();
      if changed {
        // The staged file is not what was written.
        ok := CleanupTransaction(false);
        return if ok then IoError else DurabilityUnknown;
      }
      ok := SwapIn(present);
      if !ok {
        ok := CleanupTransaction(false);
        return IoError;
      }
      ok := SyncNow();
      if !ok {
        ok := RollBack(present);
        return DurabilityUnknown;
      }
      ghost var j := |trace| - 1;
      assert DurablyExchanged(trace[j], plan);
      hide DurablyPrepared, DurablyExchanged;
      changed := Trouble();
      if changed {
        // The document in place does not verify: roll back, check, clean up.
        ok := RollBack(present);
        if !ok { return DurabilityUnknown; }
        changed := Trouble();
        if changed { return DurabilityUnknown; }
        ok := CleanupTransaction(false);
        return if ok then IoError else DurabilityUnknown;
      }
      ok := Finalize(plan);
      return if ok then Applied else DurabilityUnknown;
    }

    method DiscardTemporary()
      requires Valid() && log.open.None?
      modifies this
      ensures Valid() && old(trace) <= trace && log == old(log)
      ensures old(faults) <= faults && IdentityOf(env, disk) == IdentityOf(env, old(disk))
    {
      hide TraceOk, LogOk, ImageOk, EnvOk, Safe;
      if Temporary in disk.entries {
        StagingIsSafe(disk, log, env);
        var ok := Attempt(UnlinkCall(Temporary), log);
      }
    }

    /** The temporary file, the caller's last checks, and the staging rename. */
    method Stage(expected: Identity, bytes: string) returns (status: Option<Status>)
      requires Valid() && log.open.None?
      modifies this
      ensures Valid() && old(trace) <= trace && log == old(log)
      ensures status.None? ==> Is(disk.entries, disk.versions, Replacement, bytes)
      ensures status.Some? ==> status.value in {IoError, PreconditionFailed, Invalid, Conflict}
      ensures status == Some(Conflict) ==> IdentityOf(env, disk) != expected
      ensures old(faults) <= faults
      ensures faults == old(faults) ==>
                status == if IdentityOf(env, old(disk)) == expected then None else Some(Conflict)
    {
      hide TraceOk, LogOk, ImageOk, EnvOk, KeepsFiles, IdentityOf;
      ghost var before := disk;
      var ok := WriteFile(Temporary, bytes);
      IdentityStays(env, before, disk, Temporary);
      if !ok {
        DiscardTemporary();
        return Some(IoError);
      }
      status := None;
      var stopped := Trouble();
      if stopped {
        if {
          case true => status := Some(PreconditionFailed);
          case true => status := Some(Invalid);
          case true => status := Some(IoError);
        }
      } else if IdentityOf(env, disk) != expected {
        status := Some(Conflict);
      } else {
        StagingIsSafe(disk, log, env);
        ok := Attempt(RenameCall(Temporary, Replacement), log);
        if !ok { status := Some(IoError); }
      }
      if status.Some? {
        DiscardTemporary();
      }
    }

    /** The part of `mutate` behind recovery; `admits` says that the caller accepts another document. */
    method Edit(expected: Identity, m: Mutation, admits: bool) returns (status: Status)
      requires Valid() && log.open.None? && disk.images == {disk.entries} && Marker !in disk.entries
      requires CollisionFree(env, Head(log), m)
      modifies this
      ensures Valid() && old(trace) <= trace
      ensures status !in {TimedOut, Cancelled} && MutationOutcome(status, old(log), old(log), log, expected, m, env)
      ensures status.Applied? ==> AppliedOutcome(disk, old(log), log, expected, m, env)
      ensures status.Conflict? ==> IdentityOf(env, disk) != expected
      ensures old(faults) <= faults
      ensures faults == old(faults) ==>
                status == Edited(env, Head(old(log)), IdentityOf(env, old(disk)), expected, m, admits)
    {
      hide TraceOk, LogOk, ImageOk, EnvOk, DiskOk, PlanOk, Is, CollisionFree, IdentityOf;
      AtRest(disk, log, env);
      var current := Read(disk, Config);
      var stopped := Trouble();
      if stopped || env.grants(current, m.account).None? { return Invalid; }
      if IdentityOf(env, disk) != expected {
        if !admits { return Conflict; }
        stopped := Trouble();
        if stopped { return DurabilityUnknown; }
        return Applied;
      }
      var planned := env.plan(current, m);
      if planned.None? { return Invalid; }
      PlanForOk(env, current, m);
      var unfit := Stage(expected, planned.value);
      if unfit.Some? { return unfit.value; }
      status := Publish(PlanFor(env, current, planned.value), m);
      if status.Applied? {
        stopped := Trouble();
        if stopped {
          if * { return IoError; }
          return DurabilityUnknown;
        }
      }
    }

    /** `Store::mutate`. */
    method Mutate(expected: Identity, m: Mutation, admits: bool) returns (status: Status)
      requires Valid() && CollisionFreeOn(env, disk, m)
      modifies this
      ensures Valid() && old(trace) <= trace
      ensures status in {TimedOut, Cancelled} ==> disk == old(disk) && log == old(log) && trace == old(trace)
      ensures MutationOutcome(status, old(log), Recover(old(disk), old(log)), log, expected, m, env)
      ensures status.Applied? ==> AppliedOutcome(disk, Recover(old(disk), old(log)), log, expected, m, env)
      ensures status.Conflict? ==> IdentityOf(env, disk) != expected
      ensures old(faults) <= faults
      ensures faults == old(faults) ==> status == Uninterrupted(env, old(disk), old(log), expected, m, admits)
    {
      hide TraceOk, LogOk, ImageOk, EnvOk, DiskOk, Stuck, IsCommitted, CollisionFree, CollisionFreeOn, Edited,
          ValidAccountName, IdentityAfter, IdentityOf, AppliedOutcome;
      var stopped := Trouble();
      if stopped {
        if * { return Cancelled; }
        return TimedOut;
      }
      if !NamesOk(m) { return Invalid; }
      stopped := Trouble();
      if stopped { return IoError; }
      ghost var before, logBefore := disk, log;
      var outcome := RecoverTransaction();
      if !outcome.Recovered? { return DurabilityUnknown; }
      RecoveredHead(before, logBefore, env, m);
      NothingOpen(logBefore, IsCommitted(before, logBefore));
      status := Edit(expected, m, admits);
    }

    // -------------------------------------------------------------- reading a grant

    /**
     `verify_write_grant`, which holds the same lock as a mutation and changes nothing; `fails` says that
     it is interrupted or a call fails. The document it speaks of outlasts any power loss exactly unless
     its commit rename is not yet durable.
     */
    method VerifyWriteGrant(expected: Identity, account: string, fails: bool) returns (status: GrantStatus)
      requires Valid()
      ensures status.Unavailable? <==> fails || (ValidAccountName(account) && Marker in disk.entries)
      ensures status.NotValid? <==>
                !fails && (!ValidAccountName(account)
                           || (Marker !in disk.entries && env.grants(Read(disk, Config), account).None?))
      ensures status in {Matched, Denied, Changed} ==>
                && Read(disk, Config) == Head(Recover(disk, log))
                && (IsCommitted(disk, log) ==> log.open.value.renamed)
                && (Lasting(disk, env.hash, Read(disk, Config)) <==> !Torn(disk, log))
                && (status.Changed? <==> IdentityOf(env, disk) != expected)
      ensures status in {Matched, Denied} ==> env.grants(Read(disk, Config), account) == Some(status.Matched?)
    {
      hide TraceOk, LogOk, ImageOk, ValidAccountName;
      if fails { return Unavailable; }
      if !ValidAccountName(account) { return NotValid; }
      ReadNone(disk, Marker);
      if Read(disk, Marker).Some? { return Unavailable; }
      MarkerAtRest(disk, log, env);
      var granted := env.grants(Read(disk, Config), account);
      if granted.None? { return NotValid; }
      if IdentityOf(env, disk) != expected { return Changed; }
      return if granted.value then Matched else Denied;
    }

    // -------------------------------------------------------------- crashes

    /**
     The process is killed after any one of its steps: the disk stays as that step left it, the
     lock is free, and what came later never happened.
     */
    method Kill(point: Disk, ghost k: nat)
      requires Valid() && k < |trace| && trace[k].disk == point
      modifies this
      ensures Valid() && disk == point && log == old(trace)[k].log && trace == old(trace)[..k + 1]
      ensures log.chain <= old(log).chain
    {
      hide Safe, EnvOk;
      TraceShrinks(trace, env, k + 1);
      disk := point;
      log := trace[k].log;
      trace := trace[..k + 1];
    }

    /** The power goes: any directory image since the last sync, any contents since each file's sync. */
    method LosePower(left: Disk)
      requires Valid() && PowerLoss(disk, left)
      modifies this
      ensures Valid() && disk == left && log == old(log) && trace == old(trace) + [Moment(left, log)]
    {
      hide TraceOk, LogOk, ImageOk, EnvOk, DiskOk;
      PowerLossIsSafe(disk, log, env, left);
      TraceGrows(trace, env, Moment(left, log));
      disk := left;
      trace := trace + [Moment(left, log)];
    }
  }
}
