/**
 config.toml as a value: the schema checks of `parse_document`, and the account
 mutations of `apply_mutation`. A TOML tree is a datatype; the text syntax is a
 pair of functions supplied by the caller.
 */
module ConfigDocument {
  import opened Optional

  datatype Toml =
    | Str(text: string)
    | Int(number: int)
    | Bool(flag: bool)
    | Table(entries: map<string, Toml>)
    | Other(content: string)  // arrays, floats, dates and times, whatever they hold

  type TomlTable = map<string, Toml>

  const MAX_ACCOUNT_NAME := 32
  const MAX_INT32 := 0x7FFF_FFFF

  predicate AccountNameChar(c: char) {
    'A' <= c <= 'Z' || 'a' <= c <= 'z' || '0' <= c <= '9' || c == '_' || c == '-'
  }

  predicate ValidAccountName(name: string) {
    1 <= |name| <= MAX_ACCOUNT_NAME && forall i :: 0 <= i < |name| ==> AccountNameChar(name[i])
  }

  datatype AccountConfig = AccountConfig(
    apiId: Option<int>, apiHash: Option<string>, apiIdCmd: Option<string>, apiHashCmd: Option<string>,
    dbKeyCmd: Option<string>, passwordCmd: Option<string>, botTokenCmd: Option<string>,
    allowWrite: bool, idleExit: Option<int>)

  datatype Snapshot = Snapshot(defaultAccount: Option<string>, accounts: map<string, AccountConfig>)

  const FORBIDDEN_SECRETS := {"bot_token", "password", "database_key", "db_key"}

  predicate TextField(table: TomlTable, key: string) {
    key in table ==> table[key].Str?
  }

  function OptionalHook(table: TomlTable, key: string): Option<string> {
    if key in table && table[key].Str? && table[key].text != "" then Some(table[key].text) else None
  }

  predicate AccountFieldsOk(table: TomlTable) {
    && table.Keys !! FORBIDDEN_SECRETS
    && ("api_id" in table ==> table["api_id"].Int? && 0 < table["api_id"].number <= MAX_INT32)
    && ("api_hash" in table ==> table["api_hash"].Str? && table["api_hash"].text != "")
    && TextField(table, "api_id_cmd") && TextField(table, "api_hash_cmd") && TextField(table, "db_key_cmd")
    && TextField(table, "password_cmd") && TextField(table, "bot_token_cmd")
    && ("allow_write" in table ==> table["allow_write"].Bool?)
    && ("idle_exit" in table ==> table["idle_exit"].Int? && table["idle_exit"].number > 0)
  }

  /** Plain app credentials may not stand beside the commands that produce them. */
  predicate CredentialsConflict(table: TomlTable) {
    || ("api_id" in table && OptionalHook(table, "api_id_cmd").Some?)
    || ("api_hash" in table && OptionalHook(table, "api_hash_cmd").Some?)
  }

  function ParseAccount(name: string, table: TomlTable): Option<AccountConfig> {
    if !ValidAccountName(name) || !AccountFieldsOk(table) || CredentialsConflict(table) then None
    else Some(AccountConfig(
      if "api_id" in table then Some(table["api_id"].number) else None,
      if "api_hash" in table then Some(table["api_hash"].text) else None,
      OptionalHook(table, "api_id_cmd"), OptionalHook(table, "api_hash_cmd"), OptionalHook(table, "db_key_cmd"),
      OptionalHook(table, "password_cmd"), OptionalHook(table, "bot_token_cmd"),
      "allow_write" in table && table["allow_write"].flag,
      if "idle_exit" in table then Some(table["idle_exit"].number) else None))
  }

  predicate EntryOk(name: string, entry: Toml) {
    entry.Table? && ParseAccount(name, entry.entries).Some?
  }

  /** The accounts table, read as empty when it is absent or not a table. */
  function Accounts(doc: TomlTable): TomlTable {
    if "accounts" in doc && doc["accounts"].Table? then doc["accounts"].entries else map[]
  }

  function DefaultAccount(doc: TomlTable): Option<string> {
    if "default_account" in doc && doc["default_account"].Str? then Some(doc["default_account"].text) else None
  }

  function ParseDocument(doc: TomlTable): Option<Snapshot> {
    var accounts := Accounts(doc);
    if "default_account" in doc
        && !(doc["default_account"].Str? && ValidAccountName(doc["default_account"].text)) then None
    else if "accounts" in doc && !doc["accounts"].Table? then None
    else if !(forall name :: name in accounts ==> EntryOk(name, accounts[name])) then None
    else if "default_account" in doc && doc["default_account"].text !in accounts then None
    else Some(Snapshot(DefaultAccount(doc),
                       map name | name in accounts :: ParseAccount(name, accounts[name].entries).value))
  }

  predicate Accepts(doc: TomlTable) {
    ParseDocument(doc).Some?
  }

  // ---------------------------------------------------------------- what is accepted, key by key

  /** What one key of an account may hold; a key that is not listed may hold anything. */
  predicate KeyOk(key: string, value: Toml) {
    match value
    case Str(text) => key in HOOKS || (key == "api_hash" && text != "") || key !in KNOWN
    case Int(n) => (key == "api_id" && 1 <= n <= 2147483647) || (key == "idle_exit" && n >= 1) || key !in KNOWN
    case Bool(_) => key == "allow_write" || key !in KNOWN
    case _ => key !in KNOWN
  }

  const HOOKS := {"api_id_cmd", "api_hash_cmd", "db_key_cmd", "password_cmd", "bot_token_cmd"}
  const KNOWN := HOOKS + {"api_id", "api_hash", "allow_write", "idle_exit"}
                 + {"bot_token", "password", "database_key", "db_key"}

  /** A command that is there and empty is no command. */
  predicate Command(table: TomlTable, key: string, command: Option<string>) {
    if command.Some? then command.value != "" && key in table && table[key] == Str(command.value)
    else key in table ==> table[key] == Str("")
  }

  predicate Number(table: TomlTable, key: string, number: Option<int>) {
    if number.Some? then key in table && table[key] == Int(number.value) else key !in table
  }

  /** The settings say what the table says. */
  predicate Describes(c: AccountConfig, table: TomlTable) {
    && Number(table, "api_id", c.apiId) && Number(table, "idle_exit", c.idleExit)
    && (if c.apiHash.Some? then "api_hash" in table && table["api_hash"] == Str(c.apiHash.value)
        else "api_hash" !in table)
    && Command(table, "api_id_cmd", c.apiIdCmd) && Command(table, "api_hash_cmd", c.apiHashCmd)
    && Command(table, "db_key_cmd", c.dbKeyCmd) && Command(table, "password_cmd", c.passwordCmd)
    && Command(table, "bot_token_cmd", c.botTokenCmd)
    && (c.allowWrite <==> "allow_write" in table && table["allow_write"] == Bool(true))
  }

  lemma FieldsIff(table: TomlTable)
    ensures AccountFieldsOk(table) <==> forall key :: key in table ==> KeyOk(key, table[key])
  {
  }

  lemma DescribesIff(name: string, table: TomlTable, c: AccountConfig)
    requires ParseAccount(name, table).Some?
    ensures Describes(c, table) <==> ParseAccount(name, table) == Some(c)
  {
    hide ValidAccountName, CredentialsConflict;
  }

  /** An account is read exactly if each of its keys may hold what it holds, and then as it is written. */
  lemma AccountIff(name: string, table: TomlTable, c: AccountConfig)
    ensures ParseAccount(name, table) == Some(c) <==>
              && 1 <= |name| <= 32 && (forall i :: 0 <= i < |name| ==> AccountNameChar(name[i]))
              && (forall key :: key in table ==> KeyOk(key, table[key]))
              && Describes(c, table)
              && (c.apiId.None? || c.apiIdCmd.None?) && (c.apiHash.None? || c.apiHashCmd.None?)
  {
    FieldsIff(table);
    hide AccountFieldsOk, KeyOk;
    if ParseAccount(name, table).Some? {
      DescribesIff(name, table, c);
    }
  }

  /** A document is read exactly if each account is, and the default, if there is one, is an account. */
  lemma DocumentIff(doc: TomlTable, s: Snapshot)
    ensures ParseDocument(doc) == Some(s) <==>
              && ("accounts" in doc ==> doc["accounts"].Table?)
              && s.accounts.Keys == Accounts(doc).Keys
              && (forall name :: name in s.accounts ==>
                    && Accounts(doc)[name].Table?
                    && ParseAccount(name, Accounts(doc)[name].entries) == Some(s.accounts[name]))
              && (match s.defaultAccount
                  case None => "default_account" !in doc
                  case Some(name) =>
                    "default_account" in doc && doc["default_account"] == Str(name) && name in s.accounts)
  {
    hide AccountFieldsOk, CredentialsConflict, OptionalHook;
    var accounts := Accounts(doc);
    if ParseDocument(doc).None? {
      if s.accounts.Keys == accounts.Keys
         && forall name :: name in s.accounts ==>
              accounts[name].Table? && ParseAccount(name, accounts[name].entries) == Some(s.accounts[name])
      {
        assert forall name :: name in accounts ==> EntryOk(name, accounts[name]);
      }
    } else {
      var r := ParseDocument(doc).value;
      assert r.accounts.Keys == accounts.Keys;
      assert s.accounts == r.accounts <==>
             s.accounts.Keys == r.accounts.Keys
             && forall name :: name in s.accounts ==> name in r.accounts && s.accounts[name] == r.accounts[name];
    }
  }

  // ---------------------------------------------------------------- mutations

  datatype Prompted = Prompted(apiId: Option<int>, apiHash: Option<string>)

  datatype MutationKind = Add | Use | Remove | MaterializeMain | ReplaceAppCredentials

  datatype Mutation = Mutation(kind: MutationKind, account: string, reassignDefault: Option<string>, prompted: Prompted)

  /** What the name checks of `mutate` establish before the document is read. */
  predicate WellFormedCall(m: Mutation) {
    && ValidAccountName(m.account)
    && (m.reassignDefault.Some? ==> ValidAccountName(m.reassignDefault.value))
  }

  /** The account a mutation is about; materializing is about main, whatever account it names. */
  function Target(m: Mutation): string {
    if m.kind.MaterializeMain? then "main" else m.account
  }

  predicate UsableCredentials(p: Prompted) {
    && (p.apiId.Some? ==> 0 < p.apiId.value <= MAX_INT32)
    && (p.apiHash.Some? ==> p.apiHash.value != "")
  }

  predicate WritesCredentials(doc: TomlTable, m: Mutation) {
    (m.kind.MaterializeMain? && "main" !in Accounts(doc)) || m.kind.ReplaceAppCredentials?
  }

  /** `insert`, which leaves a key that is there as it is. */
  function Inserted(table: TomlTable, key: string, value: Toml): TomlTable {
    if key in table then table else table[key := value]
  }

  function WithAccounts(doc: TomlTable, accounts: TomlTable): TomlTable {
    doc["accounts" := Table(accounts)]
  }

  function WithDefault(doc: TomlTable, name: string): TomlTable {
    doc["default_account" := Str(name)]
  }

  function FreshAccount(p: Prompted): TomlTable {
    if p.apiId.Some? && p.apiHash.Some?
    then map["allow_write" := Bool(false), "api_id" := Int(p.apiId.value), "api_hash" := Str(p.apiHash.value)]
    else map["allow_write" := Bool(false)]
  }

  function ReplacedEntry(before: TomlTable, apiId: int, apiHash: string): TomlTable {
    (before - {"api_id_cmd", "api_hash_cmd"})["api_id" := Int(apiId)]["api_hash" := Str(apiHash)]
  }

  /** The removal branch: who becomes the default, or a refusal. */
  function AfterRemoval(doc: TomlTable, m: Mutation): Option<TomlTable>
    requires m.account in Accounts(doc)
  {
    var accounts := Accounts(doc);
    var isDefault := DefaultAccount(doc) == Some(m.account);
    var remaining := WithAccounts(doc, accounts - {m.account});
    if !isDefault then
      if m.reassignDefault.Some? then None else Some(remaining)
    else if |accounts| == 1 then
      if m.reassignDefault.Some? then None else Some(remaining - {"default_account"})
    else if m.reassignDefault.Some? && m.reassignDefault.value != m.account && m.reassignDefault.value in accounts then
      Some(WithDefault(remaining, m.reassignDefault.value))
    else None
  }

  /** The document after a mutation, or `None` when the mutation is refused. */
  function Mutated(doc: TomlTable, m: Mutation): Option<TomlTable> {
    var accounts := Accounts(doc);
    var exists_ := m.account in accounts;
    match m.kind
    case Add =>
      if exists_ then None
      else
        var added := WithAccounts(doc, accounts[m.account := Table(map["allow_write" := Bool(false)])]);
        Some(if accounts == map[] && "default_account" !in doc then WithDefault(added, m.account) else added)
    case Use =>
      if !exists_ then None else Some(WithDefault(doc, m.account))
    case Remove =>
      if !exists_ then None else AfterRemoval(doc, m)
    case MaterializeMain =>
      if exists_ || m.prompted.apiId.Some? != m.prompted.apiHash.Some? then None
      else
        var added := WithAccounts(doc, Inserted(accounts, "main", Table(FreshAccount(m.prompted))));
        Some(if "default_account" !in doc then WithDefault(added, "main") else added)
    case ReplaceAppCredentials =>
      if !exists_ || m.prompted.apiId.None? || m.prompted.apiHash.None? || !accounts[m.account].Table? then None
      else
        var replaced := ReplacedEntry(accounts[m.account].entries, m.prompted.apiId.value, m.prompted.apiHash.value);
        Some(WithAccounts(doc, accounts[m.account := Table(replaced)]))
  }

  /** The parsed document that `apply_mutation` edits in place. */
  class Document {
    var root: TomlTable

    constructor (root: TomlTable)
      ensures this.root == root
    {
      this.root := root;
    }

    /** The removal of an account that exists. */
    method RemoveAccount(m: Mutation) returns (ok: bool)
      requires m.account in Accounts(root)
      modifies this
      ensures ok == AfterRemoval(old(root), m).Some?
      ensures root == if ok then AfterRemoval(old(root), m).value else old(root)
    {
      var accounts := root["accounts"].entries;
      var current := DefaultAccount(root);
      if m.reassignDefault.Some? && current != Some(m.account) { return false; }
      if current == Some(m.account) {
        if |accounts| == 1 {
          if m.reassignDefault.Some? { return false; }
          root := root - {"default_account"};
        } else {
          if m.reassignDefault.None? || m.reassignDefault.value == m.account || m.reassignDefault.value !in accounts {
            return false;
          }
          root := WithDefault(root, m.reassignDefault.value);
        }
      }
      root := WithAccounts(root, accounts - {m.account});
      return true;
    }

    /**
     Edits the document. A refused mutation leaves every entry as it was, except that a
     missing accounts table has been created.
     */
    method ApplyMutation(m: Mutation) returns (ok: bool)
      modifies this
      ensures ok == Mutated(old(root), m).Some?
      ensures ok ==> root == Mutated(old(root), m).value
      ensures !ok ==> root == old(root) || root == WithAccounts(old(root), map[])
      ensures !ok ==> Accounts(root) == Accounts(old(root))
    {
      hide AfterRemoval, ValidAccountName, DefaultAccount;
      if "accounts" !in root || !root["accounts"].Table? {
        root := root["accounts" := Table(map[])];
      }
      var accounts := root["accounts"].entries;
      var known := m.account in accounts;
      match m.kind {
        case Add =>
          if known { return false; }
          var wasEmpty := accounts == map[];
          root := WithAccounts(root, accounts[m.account := Table(map["allow_write" := Bool(false)])]);
          if wasEmpty && "default_account" !in root {
            root := WithDefault(root, m.account);
          }
        case Use =>
          if !known { return false; }
          root := WithDefault(root, m.account);
        case Remove =>
          if !known { return false; }
          ok := RemoveAccount(m);
          return;
        case MaterializeMain =>
          if known || m.prompted.apiId.Some? != m.prompted.apiHash.Some? { return false; }
          var account: TomlTable := map["allow_write" := Bool(false)];
          if m.prompted.apiId.Some? {
            account := account["api_id" := Int(m.prompted.apiId.value)]["api_hash" := Str(m.prompted.apiHash.value)];
          }
          assert account == FreshAccount(m.prompted);
          root := WithAccounts(root, Inserted(accounts, "main", Table(account)));
          if "default_account" !in root {
            root := WithDefault(root, "main");
          }
        case ReplaceAppCredentials =>
          if !known || m.prompted.apiId.None? || m.prompted.apiHash.None?
              || !accounts[m.account].Table? { return false; }
          var account := accounts[m.account].entries - {"api_id_cmd"} - {"api_hash_cmd"};
          account := account["api_id" := Int(m.prompted.apiId.value)]["api_hash" := Str(m.prompted.apiHash.value)];
          assert accounts[m.account].entries - {"api_id_cmd"} - {"api_hash_cmd"}
                 == accounts[m.account].entries - {"api_id_cmd", "api_hash_cmd"};
          root := WithAccounts(root, accounts[m.account := Table(account)]);
      }
      return true;
    }
  }

  // ---------------------------------------------------------------- what every mutation keeps

  predicate GrantsWrite(doc: TomlTable, name: string) {
    name in Accounts(doc) && Accounts(doc)[name].Table? && "allow_write" in Accounts(doc)[name].entries
    && Accounts(doc)[name].entries["allow_write"] == Bool(true)
  }

  /** The set of accounts a successful mutation leaves. */
  function AccountsAfter(before: set<string>, m: Mutation): set<string> {
    match m.kind
    case Add => before + {m.account}
    case MaterializeMain => before + {"main"}
    case Remove => before - {m.account}
    case Use => before
    case ReplaceAppCredentials => before
  }

  /** The set of accounts changes by the named one only, and the others keep their whole table. */
  lemma OtherAccountsStay(doc: TomlTable, m: Mutation)
    requires Mutated(doc, m).Some?
    ensures var after := Mutated(doc, m).value;
            && Accounts(after).Keys == AccountsAfter(Accounts(doc).Keys, m)
            && (forall name :: name in Accounts(after) && name != Target(m) ==>
                 name in Accounts(doc) && Accounts(after)[name] == Accounts(doc)[name])
  {
    hide ValidAccountName, DefaultAccount, ReplacedEntry, FreshAccount;
    var after := Mutated(doc, m).value;
    if m.kind.Remove? {
      assert AfterRemoval(doc, m) == Some(after);
      assert Accounts(after) == Accounts(doc) - {m.account};
    } else if m.kind.Use? {
      assert Accounts(after) == Accounts(doc);
    }
  }

  /** Nothing outside the accounts and the default is touched. */
  lemma OtherKeysStay(doc: TomlTable, m: Mutation, key: string)
    requires Mutated(doc, m).Some? && key !in {"accounts", "default_account"}
    ensures var after := Mutated(doc, m).value;
            (key in after <==> key in doc) && (key in doc ==> after[key] == doc[key])
  {
    hide ValidAccountName, DefaultAccount, ReplacedEntry, FreshAccount, Accounts;
    if m.kind.Remove? {
      assert AfterRemoval(doc, m) == Some(Mutated(doc, m).value);
    }
  }

  /** No mutation changes who may write: an account that survives keeps its grant, an added one has none. */
  lemma MutationKeepsGrants(doc: TomlTable, m: Mutation, name: string)
    requires Mutated(doc, m).Some? && name in Accounts(Mutated(doc, m).value)
    ensures GrantsWrite(Mutated(doc, m).value, name) == GrantsWrite(doc, name)
  {
    hide ValidAccountName, DefaultAccount;
    OtherAccountsStay(doc, m);
    if m.kind.Remove? {
      assert AfterRemoval(doc, m) == Some(Mutated(doc, m).value);
    }
  }

  /** Whatever a mutation is asked for, nobody can write after it who could not before. */
  lemma GrantsNeverGrow(doc: TomlTable, m: Mutation, name: string)
    requires Mutated(doc, m).Some? && GrantsWrite(Mutated(doc, m).value, name)
    ensures GrantsWrite(doc, name)
  {
    hide ValidAccountName, DefaultAccount;
    if m.kind.Remove? {
      assert AfterRemoval(doc, m) == Some(Mutated(doc, m).value);
    }
  }

  // ---------------------------------------------------------------- what a mutation does, key by key

  function Entry(table: TomlTable, key: string): Option<Toml> {
    if key in table then Some(table[key]) else None
  }

  /** The accounts a mutation can be applied to, with the default there is. */
  predicate Applicable(accounts: TomlTable, current: Option<string>, m: Mutation) {
    match m.kind
    case Add => m.account !in accounts
    case Use => m.account in accounts
    case Remove =>
      && m.account in accounts
      && if current == Some(m.account) && accounts.Keys != {m.account}
         then m.reassignDefault.Some? && m.reassignDefault.value in accounts.Keys - {m.account}
         else m.reassignDefault.None?
    case MaterializeMain => m.account !in accounts && (m.prompted.apiId.Some? <==> m.prompted.apiHash.Some?)
    case ReplaceAppCredentials =>
      m.account in accounts && accounts[m.account].Table? && m.prompted.apiId.Some? && m.prompted.apiHash.Some?
  }

  lemma SoleAccount(accounts: TomlTable, account: string)
    requires account in accounts
    ensures |accounts| == 1 <==> accounts.Keys == {account}
  {
    assert |accounts| == |accounts.Keys|;
    if |accounts| == 1 {
      assert |accounts.Keys - {account}| == 0;
      assert accounts.Keys == {account} + (accounts.Keys - {account});
    }
  }

  /** A mutation is refused exactly if it cannot be applied to the accounts and the default there are. */
  lemma MutationSucceedsIff(doc: TomlTable, m: Mutation)
    ensures Mutated(doc, m).Some? <==> Applicable(Accounts(doc), DefaultAccount(doc), m)
  {
    hide FreshAccount, ReplacedEntry, DefaultAccount, Accounts;
    if m.kind.Remove? && m.account in Accounts(doc) {
      SoleAccount(Accounts(doc), m.account);
    }
  }

  /** The default afterwards. */
  function DefaultAfter(doc: TomlTable, m: Mutation): Option<Toml> {
    var before := Entry(doc, "default_account");
    match m.kind
    case Add => if Accounts(doc) == map[] && before.None? then Some(Str(m.account)) else before
    case Use => Some(Str(m.account))
    case Remove =>
      if DefaultAccount(doc) != Some(m.account) then before
      else if m.reassignDefault.Some? then Some(Str(m.reassignDefault.value)) else None
    case MaterializeMain => if before.None? then Some(Str("main")) else before
    case ReplaceAppCredentials => before
  }

  lemma DefaultIs(doc: TomlTable, m: Mutation)
    requires Mutated(doc, m).Some?
    ensures Entry(Mutated(doc, m).value, "default_account") == DefaultAfter(doc, m)
  {
    hide FreshAccount, ReplacedEntry;
    if m.kind.Remove? {
      assert AfterRemoval(doc, m) == Some(Mutated(doc, m).value);
    }
  }

  /** One field of the table of the account a mutation is about. */
  function FieldAfter(before: TomlTable, m: Mutation, key: string): Option<Toml> {
    match m.kind
    case Add => if key == "allow_write" then Some(Bool(false)) else None
    case MaterializeMain =>
      if key == "allow_write" then Some(Bool(false))
      else if key == "api_id" && m.prompted.apiId.Some? then Some(Int(m.prompted.apiId.value))
      else if key == "api_hash" && m.prompted.apiHash.Some? then Some(Str(m.prompted.apiHash.value))
      else None
    case ReplaceAppCredentials =>
      if key == "api_id" && m.prompted.apiId.Some? then Some(Int(m.prompted.apiId.value))
      else if key == "api_hash" && m.prompted.apiHash.Some? then Some(Str(m.prompted.apiHash.value))
      else if key in {"api_id_cmd", "api_hash_cmd"} then None
      else Entry(before, key)
    case _ => Entry(before, key)
  }

  /** The table of the account a mutation adds or changes, field by field; `main` is never overwritten. */
  lemma TargetTableIs(doc: TomlTable, m: Mutation, key: string)
    requires Mutated(doc, m).Some? && !m.kind.Remove?
    ensures var before, after := Accounts(doc), Accounts(Mutated(doc, m).value);
            && Target(m) in after
            && if m.kind.Use? || (m.kind.MaterializeMain? && "main" in before)
               then Entry(after, Target(m)) == Entry(before, Target(m))
               else
                 && after[Target(m)].Table?
                 && Entry(after[Target(m)].entries, key)
                    == FieldAfter(if Target(m) in before && before[Target(m)].Table? then before[Target(m)].entries
                                  else map[], m, key)
  {
    hide DefaultAccount, AfterRemoval;
  }

  /** Entries of an accepted document, one by one. */
  predicate EntriesOk(accounts: TomlTable) {
    forall name :: name in accounts ==> EntryOk(name, accounts[name])
  }

  predicate DefaultNamesAccount(doc: TomlTable) {
    "default_account" in doc ==>
      doc["default_account"].Str? && ValidAccountName(doc["default_account"].text)
          && doc["default_account"].text in Accounts(doc)
  }

  lemma AcceptsIff(doc: TomlTable)
    ensures Accepts(doc)
            <==> ("accounts" in doc ==> doc["accounts"].Table?) && EntriesOk(Accounts(doc)) && DefaultNamesAccount(doc)
  {
  }

  /**
   A successful mutation of an accepted document yields an accepted document exactly when the
   credentials it writes are usable; the mutations that write none always do.
   */
  lemma MutationKeepsDocumentValid(doc: TomlTable, m: Mutation)
    requires Accepts(doc) && WellFormedCall(m) && Mutated(doc, m).Some?
    ensures Accepts(Mutated(doc, m).value) <==> (WritesCredentials(doc, m) ==> UsableCredentials(m.prompted))
  {
    var after := Mutated(doc, m).value;
    AcceptsIff(doc);
    AcceptsIff(after);
    OtherAccountsStay(doc, m);
    DefaultSurvives(doc, m);
    hide Mutated, EntryOk, Accepts;
    if Target(m) in Accounts(after) {
      NamedEntry(doc, m);
    }
    forall name | name in Accounts(after) && name != Target(m)
      ensures EntryOk(name, Accounts(after)[name])
    {
      assert name in Accounts(doc);
    }
  }

  lemma DefaultSurvives(doc: TomlTable, m: Mutation)
    requires Accepts(doc) && WellFormedCall(m) && Mutated(doc, m).Some?
    ensures DefaultNamesAccount(Mutated(doc, m).value)
    ensures "accounts" in Mutated(doc, m).value && Mutated(doc, m).value["accounts"].Table?
  {
    AcceptsIff(doc);
    MainIsValid();
    hide Accepts, EntriesOk, ValidAccountName, ReplacedEntry, FreshAccount;
    if m.kind.Remove? {
      assert AfterRemoval(doc, m).Some?;
    }
  }

  lemma MainIsValid()
    ensures ValidAccountName("main")
  {
  }

  /** The default changes only by a `use`, to fill a missing one, or because its account goes. */
  lemma DefaultChangesOnlyWhenAsked(doc: TomlTable, m: Mutation)
    requires Mutated(doc, m).Some?
    ensures var before, after := DefaultAccount(doc), DefaultAccount(Mutated(doc, m).value);
            && (after == before || after == Some(Target(m)) || (m.kind.Remove? && after == m.reassignDefault))
            && (after != before && before.Some? ==> m.kind.Use? || (m.kind.Remove? && before == Some(m.account)))
            && (m.kind.Remove? ==> after != Some(m.account))
            && (m.kind.Use? ==> after == Some(m.account))
  {
    hide ValidAccountName, ReplacedEntry, FreshAccount;
    if m.kind.Remove? {
      assert AfterRemoval(doc, m) == Some(Mutated(doc, m).value);
    }
  }

  lemma FreshEntryOk(name: string, p: Prompted)
    requires ValidAccountName(name) && (p.apiId.Some? <==> p.apiHash.Some?)
    ensures ParseAccount(name, FreshAccount(p)).Some? <==> UsableCredentials(p)
  {
    var entry := FreshAccount(p);
    assert "api_id" in entry <==> p.apiId.Some?;
    assert "api_hash" in entry <==> p.apiHash.Some?;
  }

  lemma ReplacedEntryOk(name: string, before: TomlTable, apiId: int, apiHash: string)
    requires ParseAccount(name, before).Some?
    ensures ParseAccount(name, ReplacedEntry(before, apiId, apiHash)).Some?
            <==> 0 < apiId <= MAX_INT32 && apiHash != ""
  {
    var entry := ReplacedEntry(before, apiId, apiHash);
    assert entry["api_hash"] == Str(apiHash);
    assert entry["api_id"] == Int(apiId);
    assert "api_id_cmd" !in entry && "api_hash_cmd" !in entry;
    forall key | key in entry && key != "api_id" && key != "api_hash"
      ensures key in before && entry[key] == before[key]
    {
    }
  }

  /** The one account table a mutation writes. */
  lemma NamedEntry(doc: TomlTable, m: Mutation)
    requires Accepts(doc) && WellFormedCall(m) && Mutated(doc, m).Some?
    requires Target(m) in Accounts(Mutated(doc, m).value)
    ensures EntryOk(Target(m), Accounts(Mutated(doc, m).value)[Target(m)])
            <==> (WritesCredentials(doc, m) ==> UsableCredentials(m.prompted))
  {
    AcceptsIff(doc);
    match m.kind {
      case Add =>
        assert map["allow_write" := Bool(false)] == FreshAccount(Prompted(None, None));
        FreshEntryOk(m.account, Prompted(None, None));
      case Use => assert EntryOk(m.account, Accounts(doc)[m.account]);
      case Remove => OtherAccountsStay(doc, m);
      case MaterializeMain =>
        if "main" in Accounts(doc) {
          assert EntryOk("main", Accounts(doc)["main"]);
        } else {
          FreshEntryOk("main", m.prompted);
        }
      case ReplaceAppCredentials =>
        assert EntryOk(m.account, Accounts(doc)[m.account]);
        ReplacedEntryOk(m.account, Accounts(doc)[m.account].entries, m.prompted.apiId.value, m.prompted.apiHash.value);
    }
  }
}
