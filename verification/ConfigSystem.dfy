/**
 The store over the documents of `ConfigDocument`: what a link of the committed chain is, and
 what every run of mutations keeps.
 */
module ConfigSystem {
  import opened Optional
  import opened ConfigDisk
  import opened ConfigRecovery
  import opened ConfigDocument
  import S = ConfigStore
  import M = TransactionMarker

  /** The TOML text syntax, which is library code. */
  datatype Codec = Codec(parse: string -> Option<TomlTable>, render: TomlTable -> string)

  /** `parse_document` on the bytes of config.toml; a missing file is the empty document. */
  function CurrentDocument(codec: Codec, current: Option<string>): Option<TomlTable> {
    match current
    case None => Some(map[])
    case Some(bytes) =>
      if |bytes| > MAX_CONFIG_BYTES then None
      else
        var doc := if bytes == "" then Some(map[]) else codec.parse(bytes);
        if doc.Some? && Accepts(doc.value) then doc else None
  }

  /** `serialize_document`: the text always ends in a newline. */
  function Serialize(codec: Codec, doc: TomlTable): (bytes: string)
    ensures bytes != "" && bytes[|bytes| - 1] == '\n'
  {
    var text := codec.render(doc);
    if text == "" || text[|text| - 1] != '\n' then text + "\n" else text
  }

  /** What `mutate` writes for this document, or `None` where it reports it invalid. */
  function PlannedBytes(codec: Codec, current: Option<string>, m: Mutation): Option<string> {
    var doc := CurrentDocument(codec, current);
    if doc.None? || Mutated(doc.value, m).None? then None
    else
      var bytes := Serialize(codec, Mutated(doc.value, m).value);
      if CurrentDocument(codec, Some(bytes)).None? then None else Some(bytes)
  }

  function Grants(codec: Codec, current: Option<string>, account: string): Option<bool> {
    var doc := CurrentDocument(codec, current);
    if doc.None? then None else Some(GrantsWrite(doc.value, account))
  }

  function Environment(hash: string -> string, codec: Codec): S.Env {
    S.Env(hash, (current, m) => PlannedBytes(codec, current, m), (current, account) => Grants(codec, current, account))
  }

  lemma EnvironmentOk(hash: string -> string, codec: Codec)
    requires forall s :: M.IsDigest(hash(s))
    ensures S.EnvOk(Environment(hash, codec))
  {
  }

  /** Parsing undoes printing, which is the text library's promise. */
  ghost predicate RoundTrips(codec: Codec) {
    forall doc :: codec.parse(Serialize(codec, doc)) == Some(doc)
  }

  /**
   When `mutate` finds something to write: the document is accepted, the mutation applies to it, the
   credentials it writes are usable, and the result fits.
   */
  lemma PlanSucceedsIff(codec: Codec, current: Option<string>, m: Mutation)
    requires RoundTrips(codec) && WellFormedCall(m)
    ensures PlannedBytes(codec, current, m).Some? <==>
            var doc := CurrentDocument(codec, current);
            && doc.Some? && Applicable(Accounts(doc.value), DefaultAccount(doc.value), m)
            && (WritesCredentials(doc.value, m) ==> UsableCredentials(m.prompted))
            && Mutated(doc.value, m).Some? && |Serialize(codec, Mutated(doc.value, m).value)| <= MAX_CONFIG_BYTES
  {
    hide Mutated, Accepts, Applicable, WritesCredentials, UsableCredentials, WellFormedCall;
    var doc := CurrentDocument(codec, current);
    if doc.Some? {
      DocumentIsAccepted(codec, current);
      MutationSucceedsIff(doc.value, m);
      if Mutated(doc.value, m).Some? {
        MutationKeepsDocumentValid(doc.value, m);
      }
    }
  }

  lemma DocumentIsAccepted(codec: Codec, current: Option<string>)
    requires CurrentDocument(codec, current).Some?
    ensures Accepts(CurrentDocument(codec, current).value)
  {
  }

  /** Every link is an accepted document, mutated by `apply_mutation` and accepted again. */
  lemma LinkIsMutation(hash: string -> string, codec: Codec, log: S.Log, i: nat)
    requires RoundTrips(codec) && S.LogOk(log, Environment(hash, codec)) && i < |log.links|
    ensures CurrentDocument(codec, log.chain[i]).Some?
    ensures Mutated(CurrentDocument(codec, log.chain[i]).value, log.links[i]).Some?
    ensures CurrentDocument(codec, log.chain[i + 1])
            == Mutated(CurrentDocument(codec, log.chain[i]).value, log.links[i])
  {
    assert log.chain[i + 1] == Environment(hash, codec).plan(log.chain[i], log.links[i]);
  }

  lemma LinkKeepsGrants(hash: string -> string, codec: Codec, log: S.Log, i: nat, account: string)
    requires RoundTrips(codec) && S.LogOk(log, Environment(hash, codec)) && i < |log.links| < |log.chain|
    requires Grants(codec, log.chain[i + 1], account) == Some(true)
    ensures Grants(codec, log.chain[i], account) == Some(true)
  {
    hide S.LogOk, Mutated, Accepts, CurrentDocument;
    LinkIsMutation(hash, codec, log, i);
    GrantsNeverGrow(CurrentDocument(codec, log.chain[i]).value, log.links[i], account);
  }

  /**
   Over every run, whatever crashes it went through, grants only ever shrink: an account that may
   write in a later committed document could already write in each earlier one.
   */
  lemma {:induction false} GrantsOnlyShrink(
    hash: string -> string, codec: Codec, log: S.Log, i: nat, j: nat, account: string)
    requires RoundTrips(codec) && S.LogOk(log, Environment(hash, codec)) && i <= j < |log.chain| == |log.links| + 1
    requires Grants(codec, log.chain[j], account) == Some(true)
    ensures Grants(codec, log.chain[i], account) == Some(true)
    decreases j - i
  {
    hide Grants, RoundTrips, S.LogOk;
    if i < j {
      LinkKeepsGrants(hash, codec, log, j - 1, account);
      GrantsOnlyShrink(hash, codec, log, i, j - 1, account);
    }
  }

  /** A grant that can be read without a marker in sight was in the document the history starts with. */
  lemma SafeGrantIsOriginal(hash: string -> string, codec: Codec, d: Disk, log: S.Log, account: string)
    requires (forall s :: M.IsDigest(hash(s))) && RoundTrips(codec)
    requires S.Safe(d, log, Environment(hash, codec)) && Marker !in d.entries
    requires Grants(codec, Read(d, Config), account) == Some(true)
    ensures log.chain != [] && Grants(codec, log.chain[0], account) == Some(true)
  {
    hide Grants, RoundTrips, S.EnvOk, S.IsCommitted, S.ImageOk, DiskOk;
    var env := Environment(hash, codec);
    EnvironmentOk(hash, codec);
    S.MarkerAtRest(d, log, env);
    SettledLog(d, log, env);
    var settled := S.Closed(log, S.IsCommitted(d, log));
    GrantsOnlyShrink(hash, codec, settled, 0, |settled.chain| - 1, account);
  }

  /** The history once what is on the disk has been decided: it starts with the same document. */
  lemma SettledLog(d: Disk, log: S.Log, env: S.Env)
    requires S.Safe(d, log, env) && Marker !in d.entries
    ensures var settled := S.Closed(log, S.IsCommitted(d, log));
            && S.LogOk(settled, env) && |settled.chain| == |settled.links| + 1
            && log.chain != [] && settled.chain[0] == log.chain[0]
  {
    SettledMoment(d, log, env);
    S.ClosingIsSafe(d, log, env, S.IsCommitted(d, log));
  }

  lemma SettledMoment(d: Disk, log: S.Log, env: S.Env)
    requires S.Safe(d, log, env) && Marker !in d.entries
    ensures S.Deciding(d, log, S.IsCommitted(d, log))
  {
    assert S.ImageOk(d.entries, d.versions, log);
  }

  /**
   So in every moment a store has gone through, with all its mutations, failures and crashes, a
   grant that `verify_write_grant` confirms was already in the document the store started with.
   */
  lemma MatchedGrantIsOriginal(hash: string -> string, codec: Codec, store: S.Store, k: nat, account: string)
    requires (forall s :: M.IsDigest(hash(s))) && RoundTrips(codec)
    requires store.Valid() && store.env == Environment(hash, codec) && k < |store.trace|
    requires Marker !in store.trace[k].disk.entries
    requires Grants(codec, Read(store.trace[k].disk, Config), account) == Some(true)
    ensures var start := store.trace[0].log.chain;
            start != [] && Grants(codec, start[0], account) == Some(true)
  {
    hide Grants, RoundTrips, S.LogOk, S.ImageOk, DiskOk, S.EnvOk;
    var first, now := store.trace[0], store.trace[k];
    SafeGrantIsOriginal(hash, codec, now.disk, now.log, account);
    assert S.Safe(first.disk, first.log, store.env) && first.log.chain <= now.log.chain;
    StartsSomewhere(first.disk, first.log, store.env);
  }

  lemma StartsSomewhere(d: Disk, log: S.Log, env: S.Env)
    requires S.Safe(d, log, env)
    ensures log.chain != []
  {
  }
}
