/**
 What `recover_transaction` decides, and why the decision is right in every directory layout
 that a crash of `mutate` or of recovery can leave.
 */
module ConfigRecovery {
  import opened Optional
  import opened ConfigDisk
  import M = TransactionMarker

  const MAX_MARKER_BYTES := 256
  const MAX_CONFIG_BYTES := 1024 * 1024

  /** One replacement of config.toml: the old document, the new one, and their digests. */
  datatype Plan = Plan(before: Option<string>, after: string, beforeHash: string, afterHash: string)

  ghost predicate PlanOk(p: Plan, hash: string -> string) {
    && p.afterHash == hash(p.after) && M.IsDigest(p.afterHash)
    && |p.after| <= MAX_CONFIG_BYTES
    && match p.before
       case None => p.beforeHash == ""
       case Some(text) =>
         && p.beforeHash == hash(text) && M.IsDigest(p.beforeHash)
         && |text| <= MAX_CONFIG_BYTES
         && (p.beforeHash == p.afterHash ==> text == p.after)
  }

  function Text(p: Plan, committed: bool): string {
    M.TransactionBytes(committed, p.before.Some?, p.beforeHash, p.afterHash)
  }

  // ---------------------------------------------------------------- the layouts a transaction passes through

  /** Nothing has moved yet: config.toml is the old document. The marker may be partly written. */
  ghost predicate NotExchanged(e: Dir, v: Contents, p: Plan) {
    && Holds(e, v, Config, p.before)
    && (Marker in e ==>
          && e[Marker] in v && (forall s :: s in v[e[Marker]] ==> s <= Text(p, false))
          && (Replacement in e ==> Is(e, v, Replacement, p.after)))
  }

  /** The documents have traded places under a complete pending marker. */
  ghost predicate Exchanged(e: Dir, v: Contents, p: Plan) {
    && Is(e, v, Marker, Text(p, false))
    && Is(e, v, Config, p.after)
    && Holds(e, v, Replacement, p.before)
  }

  /** The committed marker replaced the pending one; cleanup may have begun. */
  ghost predicate CommittedLayout(e: Dir, v: Contents, p: Plan) {
    && Is(e, v, Config, p.after)
    && (Marker in e ==>
          && Is(e, v, Marker, Text(p, true))
          && (Replacement in e ==> p.before.Some? && Is(e, v, Replacement, p.before.value)))
  }

  ghost predicate Uncommitted(e: Dir, v: Contents, p: Plan) {
    NotExchanged(e, v, p) || Exchanged(e, v, p)
  }

  // ---------------------------------------------------------------- the decision

  datatype Action = Refuse | RemoveOrphans | FinishCommit | KeepOld | SwapBack | RemoveConfig

  /** The branches of `recover_transaction`, on the three files it reads. */
  function Decide(marker: Option<string>, config: Option<string>, replacement: Option<string>,
      hash: string -> string): Action {
    if marker.None? then RemoveOrphans
    else if |marker.value| > MAX_MARKER_BYTES || M.ParseTransaction(marker.value).None? then Refuse
    else if config.Some? && |config.value| > MAX_CONFIG_BYTES then Refuse
    else if replacement.Some? && |replacement.value| > MAX_CONFIG_BYTES then Refuse
    else
      var record := M.ParseTransaction(marker.value).value;
      match record.state
      case CommittedPresent => DecideCommitted(record, config, hash)
      case CommittedMissing => DecideCommitted(record, config, hash)
      case PendingPresent =>
        if config.None? || replacement.None? then Refuse
        else if hash(config.value) == record.newHash && hash(replacement.value) == record.oldHash then SwapBack
        else if hash(config.value) != record.oldHash || hash(replacement.value) != record.newHash then Refuse
        else KeepOld
      case PendingMissing =>
        if config.Some? && hash(config.value) == record.newHash && replacement.None? then RemoveConfig
        else if config.None? && (replacement.None? || hash(replacement.value) == record.newHash) then KeepOld
        else Refuse
  }

  function DecideCommitted(record: M.Record, config: Option<string>, hash: string -> string): Action {
    if config.None? || hash(config.value) != record.newHash then Refuse else FinishCommit
  }

  /** config.toml once the action has been carried out. */
  function ConfigAfter(action: Action, config: Option<string>, replacement: Option<string>): Option<string> {
    match action
    case SwapBack => replacement
    case RemoveConfig => None
    case _ => config
  }

  function DecideDisk(d: Disk, hash: string -> string): Action {
    Decide(Read(d, Marker), Read(d, Config), Read(d, Replacement), hash)
  }

  /** config.toml as recovery leaves it. */
  function Outcome(d: Disk, hash: string -> string): Option<string> {
    ConfigAfter(DecideDisk(d, hash), Read(d, Config), Read(d, Replacement))
  }

  // ---------------------------------------------------------------- what the decision achieves

  lemma MarkerText(p: Plan, hash: string -> string, committed: bool, s: string)
    requires PlanOk(p, hash) && s <= Text(p, committed)
    ensures |s| <= MAX_MARKER_BYTES
    ensures M.ParseTransaction(s)
         == (if |s| + 1 < |Text(p, committed)| then None
             else Some(M.Record(M.RecordState(committed, p.before.Some?), p.beforeHash, p.afterHash)))
  {
    M.PrefixParses(committed, p.before.Some?, p.beforeHash, p.afterHash, |s|);
    assert s == Text(p, committed)[..|s|];
  }

  /** The pending marker is missing bytes that matter, or its rollback copy is gone. */
  ghost predicate Unrecoverable(d: Disk, p: Plan) {
    Marker in d.entries
    && (|Read(d, Marker).GetOr("")| + 1 < |Text(p, false)| || (p.before.Some? && Replacement !in d.entries))
  }

  /** Before the exchange: refused exactly in the two crash states, otherwise the old document stays. */
  lemma DecidesNotExchanged(d: Disk, p: Plan, hash: string -> string)
    requires DiskOk(d) && PlanOk(p, hash) && NotExchanged(d.entries, d.versions, p)
    ensures Read(d, Config) == p.before
    ensures DecideDisk(d, hash).Refuse? <==> Unrecoverable(d, p)
    ensures !DecideDisk(d, hash).FinishCommit? && !DecideDisk(d, hash).RemoveConfig?
    ensures Outcome(d, hash) == p.before
  {
    ReadHolds(d, Config, p.before);
    if Marker in d.entries {
      var s := d.data[d.entries[Marker]];
      assert s in d.versions[d.entries[Marker]];
      MarkerText(p, hash, false, s);
      if Replacement in d.entries {
        ReadIs(d, Replacement, p.after);
      }
    }
  }

  /** After the exchange and before the commit: rolled back to the old document. */
  lemma DecidesExchanged(d: Disk, p: Plan, hash: string -> string)
    requires DiskOk(d) && PlanOk(p, hash) && Exchanged(d.entries, d.versions, p)
    ensures DecideDisk(d, hash) == if p.before.Some? then SwapBack else RemoveConfig
    ensures Outcome(d, hash) == p.before
  {
    ReadIs(d, Marker, Text(p, false));
    ReadIs(d, Config, p.after);
    ReadHolds(d, Replacement, p.before);
    MarkerText(p, hash, false, Text(p, false));
  }

  /** After the commit: the new document stays. */
  lemma DecidesCommitted(d: Disk, p: Plan, hash: string -> string)
    requires DiskOk(d) && PlanOk(p, hash) && CommittedLayout(d.entries, d.versions, p)
    ensures DecideDisk(d, hash) == (if Marker in d.entries then FinishCommit else RemoveOrphans)
    ensures Read(d, Config) == Some(p.after)
  {
    ReadIs(d, Config, p.after);
    if Marker in d.entries {
      ReadIs(d, Marker, Text(p, true));
      MarkerText(p, hash, true, Text(p, true));
      if Replacement in d.entries { ReadIs(d, Replacement, p.before.value); }
    }
  }

  /** Until the commit the old document can always be read back from one of two names. */
  lemma OldStaysReachable(d: Disk, p: Plan)
    requires DiskOk(d) && Uncommitted(d.entries, d.versions, p) && p.before.Some?
    ensures Read(d, Config) == p.before || Read(d, Replacement) == p.before
  {
    if NotExchanged(d.entries, d.versions, p) {
      ReadHolds(d, Config, p.before);
    } else {
      ReadHolds(d, Replacement, p.before);
    }
  }

  /** The file is there and has this digest. */
  predicate Matches(file: Option<string>, digest: string, hash: string -> string) {
    file.Some? && hash(file.value) == digest
  }

  predicate Fits(file: Option<string>) {
    file.Some? ==> |file.value| <= MAX_CONFIG_BYTES
  }

  /** What recovery needs to find under a marker that says this, whatever was there before. */
  predicate Recoverable(record: M.Record, config: Option<string>, replacement: Option<string>,
      hash: string -> string) {
    match record.state
    case PendingPresent =>
      || (Matches(config, record.newHash, hash) && Matches(replacement, record.oldHash, hash))
      || (Matches(config, record.oldHash, hash) && Matches(replacement, record.newHash, hash))
    case PendingMissing =>
      || (Matches(config, record.newHash, hash) && replacement.None?)
      || (config.None? && (replacement.None? || Matches(replacement, record.newHash, hash)))
    case _ => Matches(config, record.newHash, hash)
  }

  /**
   On any directory at all: recovery goes ahead exactly if there is no marker or the files match what
   the marker says of them, and ends with the document whose digest the marker names.
   */
  lemma RecoveryNeverGuesses(d: Disk, hash: string -> string)
    ensures var marker, config, replacement := Read(d, Marker), Read(d, Config), Read(d, Replacement);
            && (DecideDisk(d, hash).Refuse? <==>
                  && marker.Some?
                  && !(&& |marker.value| <= MAX_MARKER_BYTES && M.ParseTransaction(marker.value).Some?
                       && Fits(config) && Fits(replacement)
                       && Recoverable(M.ParseTransaction(marker.value).value, config, replacement, hash)))
            && (DecideDisk(d, hash).Refuse? || marker.None? ==> Outcome(d, hash) == config)
    ensures Read(d, Marker).Some? && !DecideDisk(d, hash).Refuse? ==>
              var record := M.ParseTransaction(Read(d, Marker).value).value;
              match record.state
              case PendingMissing => Outcome(d, hash).None?
              case PendingPresent => Matches(Outcome(d, hash), record.oldHash, hash)
              case _ => Outcome(d, hash) == Read(d, Config) && Matches(Outcome(d, hash), record.newHash, hash)
  {
    hide M.ParseTransaction;
  }
}
