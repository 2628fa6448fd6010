/**
 Provider keys in two files (src/auth_store.rs, src/config.rs:193-230, 1888-1926, 2010-2020): loading
 moves keys written inline in `config.toml` to `auth.toml`. The files are values; whether a write
 succeeds is decided outside.
*/
module KeyStore {
  import opened RustText

  /** A provider entry, as far as keys go. `authFileKeys` is never written to a file. */
  datatype Provider = Provider(id: string, providerType: string, model: string, apiKey: string,
                               apiKeys: seq<string>, authFileKeys: seq<string>)

  /** `auth.toml` as text or tables: missing and unusable files read alike. */
  datatype AuthFile = Unreadable | Tables(entries: map<string, seq<string>>)

  /**
   `config.toml`: the providers, the legacy single-provider block, the defaults, and whether some other
   migration (secret, token limit, remote access) would rewrite the file when it is loaded.
  */
  datatype ConfigFile = ConfigFile(providers: seq<Provider>, legacy: Provider, defaultProvider: string,
                                   defaultModel: string, dirty: bool)

  datatype Disk = Disk(config: ConfigFile, auth: AuthFile)

  type Store = map<string, seq<string>>

  // ---- single providers --------------------------------------------------------------

  /** `effective_id`. */
  function EffectiveId(p: Provider): string {
    if IsBlank(p.id) then p.providerType else Trim(p.id)
  }

  /** Trimmed, non-blank members of a list of keys. */
  function KeySet(keys: seq<string>): set<string> {
    set k | k in keys && !IsBlank(k) :: Trim(k)
  }

  lemma KeySetConcat(a: seq<string>, b: seq<string>)
    ensures KeySet(a + b) == KeySet(a) + KeySet(b)
  {
    forall x ensures x in KeySet(a + b) <==> x in KeySet(a) + KeySet(b) {
      if x in KeySet(a) {
        var k :| k in a && !IsBlank(k) && Trim(k) == x;
        assert k in a + b;
      }
      if x in KeySet(b) {
        var k :| k in b && !IsBlank(k) && Trim(k) == x;
        assert k in a + b;
      }
    }
  }

  /** Adds a key the way every list here is filled: trimmed, unless blank or already there. */
  function AddKey(keys: seq<string>, k: string): seq<string> {
    if IsBlank(k) || Trim(k) in keys then keys else keys + [Trim(k)]
  }

  function AddKeys(keys: seq<string>, more: seq<string>): seq<string> {
    if |more| == 0 then keys else AddKey(AddKeys(keys, more[..|more| - 1]), more[|more| - 1])
  }

  /** Distinct, trimmed and not blank: what loading leaves in a list. */
  ghost predicate Clean(keys: seq<string>) {
    && (forall k :: k in keys ==> !IsBlank(k) && Trim(k) == k)
    && forall i, j :: 0 <= i < j < |keys| ==> keys[i] != keys[j]
  }

  lemma CleanSet(keys: seq<string>)
    requires Clean(keys)
    ensures forall k :: k in KeySet(keys) <==> k in keys
  {
    forall k | k in keys ensures k in KeySet(keys) {
      assert Trim(k) == k;
    }
  }

  lemma {:induction false} AddKeysClean(keys: seq<string>, more: seq<string>)
    requires Clean(keys)
    ensures Clean(AddKeys(keys, more))
    ensures forall k :: k in AddKeys(keys, more) <==> k in keys || k in KeySet(more)
    ensures AddKeys(keys, more) == keys <==> forall k :: k in KeySet(more) ==> k in keys
    ensures |AddKeys(keys, more)| >= |keys|
    ensures |AddKeys(keys, more)| == |keys| ==> AddKeys(keys, more) == keys
  {
    if |more| > 0 {
      var init, last := more[..|more| - 1], more[|more| - 1];
      AddKeysClean(keys, init);
      TrimTwice(last);
      assert more == init + [last];
      KeySetConcat(init, [last]);
      forall k ensures k in KeySet([last]) <==> !IsBlank(last) && k == Trim(last) {
        if !IsBlank(last) { assert last in [last]; }
      }
    }
  }

  /** `key_candidates`. */
  function KeyCandidates(p: Provider): seq<string> {
    AddKeys([], [p.apiKey] + p.apiKeys + p.authFileKeys)
  }

  method ListKeyCandidates(p: Provider) returns (out: seq<string>)
    ensures out == KeyCandidates(p)
  {
    var all := [p.apiKey] + p.apiKeys + p.authFileKeys;
    out := [];
    for i := 0 to |all|
      invariant out == AddKeys([], all[..i])
    {
      AddKeysNext(all, i);
      var trimmed := Trim(all[i]);
      if trimmed != "" && trimmed !in out { out := out + [trimmed]; }
    }
    assert all[..|all|] == all;
  }

  lemma AddKeysNext(all: seq<string>, i: nat)
    requires i < |all|
    ensures AddKeys([], all[..i + 1]) == AddKey(AddKeys([], all[..i]), all[i])
  {
    assert all[..i + 1][..i] == all[..i];
  }

  lemma CandidateSet(p: Provider)
    ensures forall k :: k in KeyCandidates(p) <==>
              k in KeySet([p.apiKey]) + KeySet(p.apiKeys) + KeySet(p.authFileKeys)
    ensures Clean(KeyCandidates(p))
  {
    AddKeysClean([], [p.apiKey] + p.apiKeys + p.authFileKeys);
    KeySetConcat([p.apiKey] + p.apiKeys, p.authFileKeys);
    KeySetConcat([p.apiKey], p.apiKeys);
  }

  // ---- the auth file -------------------------------------------------------------------

  /** One table read: trimmed, non-blank, distinct, sorted. */
  function LoadTable(list: seq<string>): (keys: seq<string>) {
    if |list| == 0 then []
    else
      var init := LoadTable(list[..|list| - 1]);
      if IsBlank(list[|list| - 1]) then init else Insert(init, Trim(list[|list| - 1]))
  }

  lemma {:induction false} LoadTableKeys(list: seq<string>)
    ensures Ascending(LoadTable(list)) && Clean(LoadTable(list))
    ensures forall k :: k in LoadTable(list) <==> k in KeySet(list)
  {
    if |list| > 0 {
      var init, last := list[..|list| - 1], list[|list| - 1];
      LoadTableKeys(init);
      assert list == init + [last];
      KeySetConcat(init, [last]);
      TrimTwice(last);
      if !IsBlank(last) {
        InsertAscending(LoadTable(init), Trim(last));
        assert last in [last];
      }
      AscendingDistinct(LoadTable(list));
    }
  }

  lemma AscendingDistinct(s: seq<string>)
    requires Ascending(s)
    ensures forall i, j :: 0 <= i < j < |s| ==> s[i] != s[j]
  {
    forall i, j | 0 <= i < j < |s| ensures s[i] != s[j] {
      LessTotal(s[i], s[j]);
    }
  }

  /** `load_auth_keys`. */
  function LoadAuth(file: AuthFile): Store {
    if file.Unreadable? then map[]
    else map id | id in file.entries && LoadTable(file.entries[id]) != [] :: LoadTable(file.entries[id])
  }

  ghost predicate CleanStore(s: Store) {
    forall id :: id in s ==> Clean(s[id])
  }

  lemma LoadAuthClean(file: AuthFile)
    ensures CleanStore(LoadAuth(file))
  {
    if file.Tables? {
      forall id | id in file.entries ensures Clean(LoadTable(file.entries[id])) {
        LoadTableKeys(file.entries[id]);
      }
    }
  }

  function StoredSet(s: Store, id: string): set<string> {
    if id in s then KeySet(s[id]) else {}
  }

  /**
   What `save_auth_keys` may write: the non-blank ids with some key, each with its distinct keys in any
   order, since they pass through a hash set.
  */
  ghost predicate SavedAs(s: Store, file: AuthFile) {
    && file.Tables?
    && (forall id :: id in file.entries <==> id in s && !IsBlank(id) && KeySet(s[id]) != {})
    && forall id :: id in file.entries ==>
         Clean(file.entries[id]) && forall k :: k in file.entries[id] <==> k in KeySet(s[id])
  }

  /** `save_auth_keys`, writing each list in the order it comes. */
  method SaveAuth(s: Store) returns (file: AuthFile)
    ensures SavedAs(s, file)
  {
    forall id | id in s
      ensures Clean(AddKeys([], s[id])) && forall k :: k in AddKeys([], s[id]) <==> k in KeySet(s[id])
    {
      AddKeysClean([], s[id]);
    }
    forall id | id in s ensures AddKeys([], s[id]) == [] <==> KeySet(s[id]) == {} {
      if AddKeys([], s[id]) != [] {
        assert AddKeys([], s[id])[0] in KeySet(s[id]);
      }
    }
    file := Tables(map id | id in s && !IsBlank(id) && AddKeys([], s[id]) != [] :: AddKeys([], s[id]));
  }

  lemma ReloadedTable(original: seq<string>, saved: seq<string>)
    requires Clean(saved) && forall k :: k in saved <==> k in KeySet(original)
    ensures KeySet(LoadTable(saved)) == KeySet(original)
  {
    LoadTableKeys(saved);
    CleanSet(saved);
    CleanSet(LoadTable(saved));
  }

  /** Loading what was saved: every key of every non-blank id, and nothing else. */
  lemma SaveLoadRoundTrip(s: Store, file: AuthFile, id: string)
    requires SavedAs(s, file)
    ensures StoredSet(LoadAuth(file), id) == if IsBlank(id) then {} else StoredSet(s, id)
  {
    if id in file.entries {
      ReloadedTable(s[id], file.entries[id]);
      NonemptyTable(file.entries[id]);
    }
  }

  lemma NonemptyTable(list: seq<string>)
    requires KeySet(LoadTable(list)) != {}
    ensures LoadTable(list) != []
  {
  }

  // ---- moving inline keys ----------------------------------------------------------------

  /** The keys of an entry that are to move; a blank `api_key` alone does not make any. */
  function Inline(p: Provider): seq<string> {
    (if IsBlank(p.apiKey) then [] else [p.apiKey]) + p.apiKeys
  }

  function Cleared(p: Provider): Provider {
    if Inline(p) == [] then p else p.(apiKey := "", apiKeys := [])
  }

  function Bucket(s: Store, id: string): seq<string> { if id in s then s[id] else [] }

  /** The store after one provider's keys went in. */
  function Deposit(s: Store, p: Provider): Store {
    if Inline(p) == [] then s
    else s[EffectiveId(p) := AddKeys(Bucket(s, EffectiveId(p)), Inline(p))]
  }

  function DepositAll(s: Store, ps: seq<Provider>): Store {
    if |ps| == 0 then s else Deposit(DepositAll(s, ps[..|ps| - 1]), ps[|ps| - 1])
  }

  /** Whether the provider holds a key its table lacks. */
  predicate BringsNew(s: Store, p: Provider) {
    AddKeys(Bucket(s, EffectiveId(p)), Inline(p)) != Bucket(s, EffectiveId(p))
  }

  /** Whether some provider brings a new key at its turn. */
  predicate Moved(s: Store, ps: seq<Provider>) {
    |ps| > 0 && (Moved(s, ps[..|ps| - 1]) || BringsNew(DepositAll(s, ps[..|ps| - 1]), ps[|ps| - 1]))
  }

  function ClearAll(ps: seq<Provider>): (r: seq<Provider>)
    ensures |r| == |ps|
  {
    seq(|ps|, i requires 0 <= i < |ps| => Cleared(ps[i]))
  }

  /** The inner loop over one provider's inline keys. */
  method FillBucket(bucket: seq<string>, inline: seq<string>) returns (filled: seq<string>, moved: bool)
    requires Clean(bucket)
    ensures filled == AddKeys(bucket, inline) && (moved <==> filled != bucket)
  {
    filled, moved := bucket, false;
    for i := 0 to |inline|
      invariant filled == AddKeys(bucket, inline[..i]) && (moved <==> |filled| > |bucket|)
      invariant |filled| >= |bucket|
    {
      var trimmed := Trim(inline[i]);
      if trimmed != "" && trimmed !in filled {
        filled := filled + [trimmed];
        moved := true;
      }
      assert inline[..i + 1][..i] == inline[..i];
    }
    assert inline[..|inline|] == inline;
    AddKeysClean(bucket, inline);
  }

  /** One provider's turn: deposit what is inline, clear it, note whether anything was new. */
  method MoveOne(store: Store, p: Provider) returns (after: Store, cleared: Provider, more: bool)
    requires CleanStore(store)
    ensures after == Deposit(store, p) && CleanStore(after) && cleared == Cleared(p)
    ensures more <==> BringsNew(store, p)
  {
    var id, inline := EffectiveId(p), Inline(p);
    if inline == [] { return store, p, false; }
    AddKeysClean(Bucket(store, id), inline);
    var filled;
    filled, more := FillBucket(Bucket(store, id), inline);
    after := store[id := filled];
    cleared := p.(apiKey := "", apiKeys := []);
  }

  /** The loop of `migrate_inline_keys_to_store`. */
  method MoveInline(stored: Store, providers: seq<Provider>)
      returns (store: Store, cleared: seq<Provider>, moved: bool)
    requires CleanStore(stored)
    ensures store == DepositAll(stored, providers) && cleared == ClearAll(providers)
    ensures moved == Moved(stored, providers)
  {
    store, cleared, moved := stored, [], false;
    for i := 0 to |providers|
      invariant store == DepositAll(stored, providers[..i]) && CleanStore(store)
      invariant cleared == ClearAll(providers[..i]) && moved == Moved(stored, providers[..i])
    {
      MoveSnoc(stored, providers, i);
      var empty, more;
      store, empty, more := MoveOne(store, providers[i]);
      cleared, moved := cleared + [empty], moved || more;
    }
    assert providers[..|providers|] == providers;
  }

  /** The three folds of the loop, one step further. */
  lemma MoveSnoc(s: Store, ps: seq<Provider>, i: nat)
    requires i < |ps|
    ensures DepositAll(s, ps[..i + 1]) == Deposit(DepositAll(s, ps[..i]), ps[i])
    ensures ClearAll(ps[..i + 1]) == ClearAll(ps[..i]) + [Cleared(ps[i])]
    ensures Moved(s, ps[..i + 1])
         == (Moved(s, ps[..i]) || BringsNew(DepositAll(s, ps[..i]), ps[i]))
  {
    hide Deposit, Cleared, BringsNew;
    FoldSnoc(s, ps[..i], ps[i]);
    assert ps[..i + 1] == ps[..i] + [ps[i]];
  }

  lemma FoldSnoc(s: Store, init: seq<Provider>, p: Provider)
    ensures DepositAll(s, init + [p]) == Deposit(DepositAll(s, init), p)
    ensures ClearAll(init + [p]) == ClearAll(init) + [Cleared(p)]
    ensures Moved(s, init + [p]) == (Moved(s, init) || BringsNew(DepositAll(s, init), p))
  {
    hide Deposit, Cleared, BringsNew;
    var all := init + [p];
    assert all[..|all| - 1] == init && all[|all| - 1] == p;
  }

  /** What the entries of one id hold inline, all together. */
  function InlineUnder(ps: seq<Provider>, id: string): set<string> {
    if |ps| == 0 then {}
    else InlineUnder(ps[..|ps| - 1], id)
         + if EffectiveId(ps[|ps| - 1]) == id then KeySet(Inline(ps[|ps| - 1])) else {}
  }

  lemma {:induction false} InlineUnderHas(ps: seq<Provider>, i: nat)
    requires i < |ps|
    ensures KeySet(Inline(ps[i])) <= InlineUnder(ps, EffectiveId(ps[i]))
  {
    if i < |ps| - 1 {
      InlineUnderHas(ps[..|ps| - 1], i);
    }
  }

  /** Every key that is inline is already stored under its entry's id. */
  ghost predicate AllStored(s: Store, ps: seq<Provider>) {
    forall id :: InlineUnder(ps, id) <= StoredSet(s, id)
  }

  lemma AllStoredSnoc(s: Store, init: seq<Provider>, p: Provider)
    ensures AllStored(s, init + [p]) <==> AllStored(s, init) && KeySet(Inline(p)) <= StoredSet(s, EffectiveId(p))
  {
    var ps := init + [p];
    assert ps[..|ps| - 1] == init;
    forall id ensures InlineUnder(ps, id)
        == InlineUnder(init, id) + if EffectiveId(p) == id then KeySet(Inline(p)) else {} {}
    if AllStored(s, ps) {
      forall id ensures InlineUnder(init, id) <= StoredSet(s, id) {
        assert InlineUnder(ps, id) <= StoredSet(s, id);
      }
      assert InlineUnder(ps, EffectiveId(p)) <= StoredSet(s, EffectiveId(p));
    }
  }

  /** Each table holds what it held before and what its entries had inline. */
  ghost predicate Deposited(s: Store, ps: seq<Provider>, after: Store) {
    CleanStore(after) && forall id :: StoredSet(after, id) == StoredSet(s, id) + InlineUnder(ps, id)
  }

  lemma BucketSet(s: Store, id: string)
    requires CleanStore(s)
    ensures Clean(Bucket(s, id)) && forall k :: k in Bucket(s, id) <==> k in StoredSet(s, id)
  {
    CleanSet(Bucket(s, id));
  }

  lemma DepositKeys(s: Store, p: Provider, other: string)
    requires CleanStore(s)
    ensures CleanStore(Deposit(s, p))
    ensures StoredSet(Deposit(s, p), other)
         == StoredSet(s, other) + if EffectiveId(p) == other then KeySet(Inline(p)) else {}
  {
    var id := EffectiveId(p);
    BucketSet(s, id);
    AddKeysClean(Bucket(s, id), Inline(p));
    BucketSet(Deposit(s, p), id);
    if Inline(p) == [] {
      assert KeySet(Inline(p)) == {};
    } else if other == id {
      forall k ensures k in StoredSet(Deposit(s, p), id) <==> k in StoredSet(s, id) + KeySet(Inline(p)) {}
    }
  }

  lemma DepositSnoc(s: Store, init: seq<Provider>, p: Provider, before: Store)
    requires Deposited(s, init, before)
    ensures Deposited(s, init + [p], Deposit(before, p))
  {
    hide Deposit, StoredSet, KeySet, EffectiveId;
    var ps := init + [p];
    assert ps[..|ps| - 1] == init;
    DepositKeys(before, p, "");
    forall id ensures StoredSet(Deposit(before, p), id) == StoredSet(s, id) + InlineUnder(ps, id) {
      DepositKeys(before, p, id);
      assert StoredSet(before, id) == StoredSet(s, id) + InlineUnder(init, id);
    }
  }

  /** A turn moves something exactly when the entry holds a key its table lacks. */
  lemma NothingNew(before: Store, p: Provider)
    requires CleanStore(before)
    ensures !BringsNew(before, p) <==> KeySet(Inline(p)) <= StoredSet(before, EffectiveId(p))
  {
    BucketSet(before, EffectiveId(p));
    AddKeysClean(Bucket(before, EffectiveId(p)), Inline(p));
  }

  /** The whole migration: what the tables hold afterwards, and when it counts as a move. */
  lemma {:induction false} DepositAllKeys(s: Store, ps: seq<Provider>)
    requires CleanStore(s)
    ensures Deposited(s, ps, DepositAll(s, ps))
    ensures !Moved(s, ps) <==> AllStored(s, ps)
  {
    if |ps| == 0 {
    } else {
      var init, p := ps[..|ps| - 1], ps[|ps| - 1];
      var before := DepositAll(s, init);
      assert ps == init + [p];
      DepositAllKeys(s, init);
      DepositSnoc(s, init, p, before);
      AllStoredSnoc(s, init, p);
      NothingNew(before, p);
      SameWhenStored(s, init, before, EffectiveId(p));
    }
  }

  lemma SameWhenStored(s: Store, init: seq<Provider>, before: Store, id: string)
    requires Deposited(s, init, before)
    ensures AllStored(s, init) ==> StoredSet(before, id) == StoredSet(s, id)
  {
    assert StoredSet(before, id) == StoredSet(s, id) + InlineUnder(init, id);
  }

  // ---- loading ------------------------------------------------------------------------------

  /** Keys read from the auth file, appended unless already known. */
  function Merge(p: Provider, stored: Store): Provider {
    p.(authFileKeys := MergeKeys(p.authFileKeys, Bucket(stored, EffectiveId(p))))
  }

  function MergeKeys(keys: seq<string>, more: seq<string>): (r: seq<string>)
    ensures forall k :: k in r <==> k in keys || k in more
  {
    if |more| == 0 then keys
    else
      var init := MergeKeys(keys, more[..|more| - 1]);
      assert more == more[..|more| - 1] + [more[|more| - 1]];
      if more[|more| - 1] in init then init else init + [more[|more| - 1]]
  }

  function MergeAll(ps: seq<Provider>, stored: Store): (r: seq<Provider>)
    ensures |r| == |ps|
  {
    seq(|ps|, i requires 0 <= i < |ps| => Merge(ps[i], stored))
  }

  /** `migrate_legacy_provider`. */
  function WithLegacy(c: ConfigFile): ConfigFile {
    if |c.providers| == 0 && c.legacy.apiKey != "" then
      c.(providers := [c.legacy],
         defaultProvider := if c.defaultProvider == "" then c.legacy.providerType else c.defaultProvider,
         defaultModel := if c.defaultModel == "" then c.legacy.model else c.defaultModel)
    else c
  }

  /** What reaches the file: everything but the auth-file keys. */
  function OnDisk(p: Provider): Provider { p.(authFileKeys := []) }

  function AllOnDisk(ps: seq<Provider>): (r: seq<Provider>)
    ensures |r| == |ps|
  {
    seq(|ps|, i requires 0 <= i < |ps| => OnDisk(ps[i]))
  }

  /** `save`, on its own copy. */
  function Serialize(c: ConfigFile): ConfigFile {
    var d := WithLegacy(c);
    ConfigFile(AllOnDisk(d.providers), OnDisk(d.legacy), d.defaultProvider, d.defaultModel, false)
  }

  datatype Loaded = Refused | Config(config: ConfigFile)

  /** The entries when the key migration is reached. */
  function Gathered(disk: Disk): seq<Provider> {
    MergeAll(WithLegacy(disk.config).providers, LoadAuth(disk.auth))
  }

  predicate NeedsMove(disk: Disk) { Moved(LoadAuth(disk.auth), Gathered(disk)) }

  /** The config in memory before it is possibly saved, given what the auth file holds by then. */
  function InMemory(disk: Disk, auth: AuthFile, migrated: bool): ConfigFile {
    var c := WithLegacy(disk.config);
    var cleared := ClearAll(Gathered(disk));
    ConfigFile(if migrated then MergeAll(cleared, LoadAuth(auth)) else cleared,
               Merge(c.legacy, LoadAuth(disk.auth)), c.defaultProvider, c.defaultModel, false)
  }

  /** Everything one `Config::load` of an existing file does. */
  ghost predicate LoadOutcome(disk: Disk, authWrites: bool, configWrites: bool, after: Disk, result: Loaded) {
    var migrated := NeedsMove(disk) && authWrites;
    var saves := disk.config.dirty || migrated;
    && (if migrated then SavedAs(DepositAll(LoadAuth(disk.auth), Gathered(disk)), after.auth)
        else after.auth == disk.auth)
    && var config := InMemory(disk, after.auth, migrated);
       if saves && !configWrites then result == Refused && after.config == disk.config
       else result == Config(config)
            && after.config == if saves then Serialize(config) else disk.config
  }

  class Files {
    var disk: Disk

    constructor (disk: Disk)
      ensures this.disk == disk
    {
      this.disk := disk;
    }

    /** `Config::load`. */
    method Load(authWrites: bool, configWrites: bool) returns (result: Loaded)
      modifies this
      ensures LoadOutcome(old(disk), authWrites, configWrites, disk, result)
    {
      var cfg := WithLegacy(disk.config);
      var stored := LoadAuth(disk.auth);
      cfg := cfg.(providers := MergeAll(cfg.providers, stored), legacy := Merge(cfg.legacy, stored));
      LoadAuthClean(disk.auth);
      var store, cleared, moved := MoveInline(stored, cfg.providers);
      cfg := cfg.(providers := cleared);
      var migratedKeys := moved && authWrites;
      if migratedKeys {
        var file := SaveAuth(store);
        disk := disk.(auth := file);
        cfg := cfg.(providers := MergeAll(cfg.providers, LoadAuth(file)));
      }
      if cfg.dirty || migratedKeys {
        cfg := cfg.(dirty := false);
        if !configWrites { return Refused; }
        disk := disk.(config := Serialize(cfg));
      }
      result := Config(cfg.(dirty := false));
    }
  }

  // ---- conservation ---------------------------------------------------------------------------

  /** Entries as a file can hold them. */
  ghost predicate FileForm(c: ConfigFile) {
    c.legacy.authFileKeys == [] && forall i :: 0 <= i < |c.providers| ==> c.providers[i].authFileKeys == []
  }

  ghost predicate SameInline(ps: seq<Provider>, qs: seq<Provider>) {
    |ps| == |qs| && forall i :: 0 <= i < |ps| ==>
      EffectiveId(ps[i]) == EffectiveId(qs[i]) && Inline(ps[i]) == Inline(qs[i])
  }

  lemma {:induction false} SameInlineUnder(ps: seq<Provider>, qs: seq<Provider>, id: string)
    requires SameInline(ps, qs)
    ensures InlineUnder(ps, id) == InlineUnder(qs, id)
  {
    if |ps| > 0 {
      SameInlineUnder(ps[..|ps| - 1], qs[..|qs| - 1], id);
    }
  }

  lemma {:induction false} NoInline(ps: seq<Provider>, id: string)
    requires forall i :: 0 <= i < |ps| ==> Inline(ps[i]) == []
    ensures InlineUnder(ps, id) == {}
  {
    if |ps| > 0 {
      NoInline(ps[..|ps| - 1], id);
      assert KeySet([]) == {};
    }
  }

  /** The entries of a load, before anything was read from the auth file. */
  function Entries(disk: Disk): seq<Provider> { WithLegacy(disk.config).providers }

  lemma GatheredInline(disk: Disk)
    ensures SameInline(Gathered(disk), Entries(disk))
    ensures NeedsMove(disk) <==> !AllStored(LoadAuth(disk.auth), Entries(disk))
    ensures Deposited(LoadAuth(disk.auth), Entries(disk), DepositAll(LoadAuth(disk.auth), Gathered(disk)))
  {
    hide InlineUnder, AllStored, Deposited, DepositAll;
    var s, ps, qs := LoadAuth(disk.auth), Gathered(disk), Entries(disk);
    LoadAuthClean(disk.auth);
    DepositAllKeys(s, ps);
    assert SameInline(ps, qs);
    forall id ensures InlineUnder(ps, id) == InlineUnder(qs, id) {
      SameInlineUnder(ps, qs, id);
    }
    Relabel(s, ps, qs, DepositAll(s, ps));
  }

  lemma Relabel(s: Store, ps: seq<Provider>, qs: seq<Provider>, after: Store)
    requires forall id :: InlineUnder(ps, id) == InlineUnder(qs, id)
    ensures AllStored(s, ps) <==> AllStored(s, qs)
    ensures Deposited(s, ps, after) <==> Deposited(s, qs, after)
  {
    if AllStored(s, ps) {
      forall id ensures InlineUnder(qs, id) <= StoredSet(s, id) { assert InlineUnder(ps, id) <= StoredSet(s, id); }
    }
    if AllStored(s, qs) {
      forall id ensures InlineUnder(ps, id) <= StoredSet(s, id) { assert InlineUnder(qs, id) <= StoredSet(s, id); }
    }
    if Deposited(s, ps, after) {
      forall id ensures StoredSet(after, id) == StoredSet(s, id) + InlineUnder(qs, id) {
        assert StoredSet(after, id) == StoredSet(s, id) + InlineUnder(ps, id);
      }
    }
    if Deposited(s, qs, after) {
      forall id ensures StoredSet(after, id) == StoredSet(s, id) + InlineUnder(ps, id) {
        assert StoredSet(after, id) == StoredSet(s, id) + InlineUnder(qs, id);
      }
    }
  }

  lemma {:induction false} MergedSet(p: Provider, stored: Store)
    ensures KeySet(Merge(p, stored).authFileKeys) == KeySet(p.authFileKeys) + StoredSet(stored, EffectiveId(p))
  {
    var more := Bucket(stored, EffectiveId(p));
    var r := MergeKeys(p.authFileKeys, more);
    assert KeySet(more) == StoredSet(stored, EffectiveId(p)) by {
      assert KeySet([]) == {};
    }
    assert KeySet(r) == KeySet(p.authFileKeys) + KeySet(more);
  }

  lemma ClearedCandidates(p: Provider)
    ensures forall k :: k in KeyCandidates(Cleared(p)) <==> k in KeySet(p.authFileKeys)
  {
    var q := Cleared(p);
    CandidateSet(q);
    assert KeySet([q.apiKey]) == {} && KeySet(q.apiKeys) == {} by {
      assert IsBlank(q.apiKey);
      assert q.apiKeys == [];
    }
  }

  /**
   Exactly the keys an entry can use after a load: those its table held and, if the auth file could be
   written and its id is not blank, those any entry of that id held inline.
  */
  lemma KeysAfterLoad(disk: Disk, authWrites: bool, configWrites: bool, after: Disk, config: ConfigFile, i: nat)
    requires FileForm(disk.config) && i < |Entries(disk)|
    requires LoadOutcome(disk, authWrites, configWrites, after, Config(config))
    ensures |config.providers| == |Entries(disk)|
    ensures var p, stored := Entries(disk)[i], LoadAuth(disk.auth);
            forall k :: k in KeyCandidates(config.providers[i]) <==>
              k in StoredSet(stored, EffectiveId(p))
                   + if authWrites && !IsBlank(EffectiveId(p)) then InlineUnder(Entries(disk), EffectiveId(p)) else {}
  {
    var p, stored := Entries(disk)[i], LoadAuth(disk.auth);
    var id := EffectiveId(p);
    var q := Gathered(disk)[i];
    assert q == Merge(p, stored) && p.authFileKeys == [];
    MergedSet(p, stored);
    assert KeySet([]) == {};
    GatheredInline(disk);
    if NeedsMove(disk) && authWrites {
      var deposited := DepositAll(stored, Gathered(disk));
      assert StoredSet(deposited, id) == StoredSet(stored, id) + InlineUnder(Entries(disk), id);
      SaveLoadRoundTrip(deposited, after.auth, id);
      MergedSet(Cleared(q), LoadAuth(after.auth));
      MergedCleared(q, LoadAuth(after.auth));
      assert config.providers[i] == Merge(Cleared(q), LoadAuth(after.auth));
    } else {
      ClearedCandidates(q);
      assert config.providers[i] == Cleared(q);
      if authWrites {
        assert InlineUnder(Entries(disk), id) <= StoredSet(stored, id);
      }
    }
  }

  lemma MergedCleared(q: Provider, stored: Store)
    ensures forall k :: k in KeyCandidates(Merge(Cleared(q), stored)) <==>
              k in KeySet(q.authFileKeys) + StoredSet(stored, EffectiveId(q))
  {
    var r := Merge(Cleared(q), stored);
    MergedSet(Cleared(q), stored);
    CandidateSet(r);
    assert KeySet([r.apiKey]) == {} && KeySet(r.apiKeys) == {} by {
      assert IsBlank(r.apiKey);
      assert r.apiKeys == [];
    }
  }

  /** Every non-blank key the entry had before the load, inline or in its table. */
  function KeysBefore(disk: Disk, i: nat): set<string>
    requires i < |Entries(disk)|
  {
    var p := Entries(disk)[i];
    KeySet([p.apiKey]) + KeySet(p.apiKeys) + StoredSet(LoadAuth(disk.auth), EffectiveId(p))
  }

  lemma InlineSet(p: Provider)
    ensures KeySet(Inline(p)) == KeySet([p.apiKey]) + KeySet(p.apiKeys)
  {
    KeySetConcat(if IsBlank(p.apiKey) then [] else [p.apiKey], p.apiKeys);
    if IsBlank(p.apiKey) {
      assert KeySet([p.apiKey]) == {} && KeySet([]) == {};
    }
  }

  /**
   No key is lost by a load exactly when the entry's inline keys were stored already, or the auth file
   could be written and the entry's id is not blank.
  */
  lemma KeyConservation(disk: Disk, authWrites: bool, configWrites: bool, after: Disk, config: ConfigFile, i: nat)
    requires FileForm(disk.config) && i < |Entries(disk)|
    requires LoadOutcome(disk, authWrites, configWrites, after, Config(config))
    ensures |config.providers| == |Entries(disk)|
    ensures var p, stored := Entries(disk)[i], LoadAuth(disk.auth);
            (forall k :: k in KeysBefore(disk, i) ==> k in KeyCandidates(config.providers[i]))
            <==> KeySet(Inline(p)) <= StoredSet(stored, EffectiveId(p)) || (authWrites && !IsBlank(EffectiveId(p)))
  {
    var p, stored := Entries(disk)[i], LoadAuth(disk.auth);
    KeysAfterLoad(disk, authWrites, configWrites, after, config, i);
    InlineSet(p);
    InlineUnderHas(Entries(disk), i);
    if !(KeySet(Inline(p)) <= StoredSet(stored, EffectiveId(p))) {
      var k :| k in KeySet(Inline(p)) && k !in StoredSet(stored, EffectiveId(p));
      assert k in KeysBefore(disk, i);
    }
  }

  // ---- loading again ---------------------------------------------------------------------------

  lemma ClearedHasNone(p: Provider)
    ensures Inline(OnDisk(Cleared(p))) == [] && EffectiveId(Cleared(p)) == EffectiveId(p)
  {
  }

  /** A saved config holds no inline keys, and has no legacy block left to fold in. */
  lemma SavedHasNoInline(disk: Disk, auth: AuthFile, migrated: bool)
    ensures var c := Serialize(InMemory(disk, auth, migrated));
            && WithLegacy(c) == c && FileForm(c) && !c.dirty
            && (forall i :: 0 <= i < |c.providers| ==> Inline(c.providers[i]) == [])
  {
    var m := InMemory(disk, auth, migrated);
    assert WithLegacy(m) == m;
    forall i | 0 <= i < |m.providers| ensures Inline(OnDisk(m.providers[i])) == [] {
      ClearedHasNone(Gathered(disk)[i]);
    }
  }

  /** When a load gets all its writes through, loading again rewrites neither file. */
  lemma SecondLoadIsQuiet(disk: Disk, configWrites: bool, middle: Disk, config: ConfigFile,
                          authWrites: bool, configWrites': bool, after: Disk, result: Loaded)
    requires LoadOutcome(disk, true, configWrites, middle, Config(config))
    requires LoadOutcome(middle, authWrites, configWrites', after, result)
    ensures after == middle && result.Config?
  {
    GatheredInline(middle);
    if disk.config.dirty || NeedsMove(disk) {
      SavedHasNoInline(disk, middle.auth, NeedsMove(disk));
      forall id ensures InlineUnder(Entries(middle), id) <= StoredSet(LoadAuth(middle.auth), id) {
        NoInline(Entries(middle), id);
      }
    }
  }

  /** Some entry without an id of any kind holds a key. */
  ghost predicate NamelessKey(ps: seq<Provider>) {
    exists i :: 0 <= i < |ps| && IsBlank(EffectiveId(ps[i])) && KeySet(Inline(ps[i])) != {}
  }

  lemma {:induction false} NamelessUnder(ps: seq<Provider>, id: string)
    requires IsBlank(id) && InlineUnder(ps, id) != {}
    ensures NamelessKey(ps)
  {
    var init, p := ps[..|ps| - 1], ps[|ps| - 1];
    if InlineUnder(init, id) != {} {
      NamelessUnder(init, id);
      var i :| 0 <= i < |init| && IsBlank(EffectiveId(init[i])) && KeySet(Inline(init[i])) != {};
      assert ps[i] == init[i];
    }
  }

  /**
   A failed config save is not made up for: the keys are in the auth file by then, so the next load finds
   something to move exactly when an entry without an id holds a key. Otherwise the inline copies stay in
   `config.toml` for good.
  */
  lemma FailedConfigSaveSticks(disk: Disk, middle: Disk, authWrites: bool, configWrites: bool,
                               after: Disk, result: Loaded)
    requires LoadOutcome(disk, true, false, middle, Refused) && NeedsMove(disk)
    requires LoadOutcome(middle, authWrites, configWrites, after, result)
    ensures middle.config == disk.config
    ensures NeedsMove(middle) <==> NamelessKey(Entries(disk))
    ensures !disk.config.dirty && !NamelessKey(Entries(disk)) ==> after == middle
  {
    hide NamelessKey;
    GatheredInline(disk);
    GatheredInline(middle);
    var s := LoadAuth(middle.auth);
    var deposited := DepositAll(LoadAuth(disk.auth), Gathered(disk));
    forall id
      ensures StoredSet(s, id) == if IsBlank(id) then {}
                                  else StoredSet(LoadAuth(disk.auth), id) + InlineUnder(Entries(disk), id)
    {
      SaveLoadRoundTrip(deposited, middle.auth, id);
      assert StoredSet(deposited, id) == StoredSet(LoadAuth(disk.auth), id) + InlineUnder(Entries(disk), id);
    }
    StoredUnlessNameless(s, LoadAuth(disk.auth), Entries(disk));
  }

  lemma StoredUnlessNameless(s: Store, before: Store, ps: seq<Provider>)
    requires forall id :: StoredSet(s, id) == if IsBlank(id) then {} else StoredSet(before, id) + InlineUnder(ps, id)
    ensures AllStored(s, ps) <==> !NamelessKey(ps)
  {
    hide StoredSet, InlineUnder, KeySet;
    if NamelessKey(ps) {
      var i :| 0 <= i < |ps| && IsBlank(EffectiveId(ps[i])) && KeySet(Inline(ps[i])) != {};
      InlineUnderHas(ps, i);
      assert StoredSet(s, EffectiveId(ps[i])) == {};
      assert !(InlineUnder(ps, EffectiveId(ps[i])) <= StoredSet(s, EffectiveId(ps[i])));
    } else {
      forall id ensures InlineUnder(ps, id) <= StoredSet(s, id) {
        if IsBlank(id) && InlineUnder(ps, id) != {} { NamelessUnder(ps, id); }
      }
    }
  }

  // ---- where a key is left -------------------------------------------------------------------------

  /** Some table of the auth file holds the key. */
  ghost predicate InAuth(file: AuthFile, k: string) { exists id :: k in StoredSet(LoadAuth(file), id) }

  /** Some entry of the list holds the key inline. */
  ghost predicate InEntries(ps: seq<Provider>, k: string) {
    exists i :: 0 <= i < |ps| && k in KeySet(Inline(ps[i]))
  }

  /** The config file holds the key inline, its legacy block included. */
  ghost predicate InConfig(c: ConfigFile, k: string) {
    k in KeySet(Inline(c.legacy)) || InEntries(c.providers, k)
  }

  /** Whether the load rewrites the config file. */
  predicate Rewrites(disk: Disk, authWrites: bool, configWrites: bool) {
    configWrites && (disk.config.dirty || (NeedsMove(disk) && authWrites))
  }

  /** The config file keeps the legacy block's keys, and its entries' just when it is not rewritten. */
  lemma KeptInConfig(disk: Disk, authWrites: bool, configWrites: bool, after: Disk, result: Loaded, k: string)
    requires LoadOutcome(disk, authWrites, configWrites, after, result)
    ensures InConfig(after.config, k)
            <==> k in KeySet(Inline(disk.config.legacy))
                 || (!Rewrites(disk, authWrites, configWrites) && InEntries(disk.config.providers, k))
  {
    hide KeySet;
    if Rewrites(disk, authWrites, configWrites) {
      var migrated := NeedsMove(disk) && authWrites;
      SavedHasNoInline(disk, after.auth, migrated);
      assert Inline(after.config.legacy) == Inline(disk.config.legacy);
      NoneInline(after.config.providers, k);
    }
  }

  lemma NoneInline(ps: seq<Provider>, k: string)
    requires forall i :: 0 <= i < |ps| ==> Inline(ps[i]) == []
    ensures !InEntries(ps, k)
  {
    assert KeySet([]) == {};
  }

  /** What the auth file holds afterwards. */
  lemma KeptInAuth(disk: Disk, authWrites: bool, configWrites: bool, after: Disk, result: Loaded, k: string)
    requires LoadOutcome(disk, authWrites, configWrites, after, result)
    ensures InAuth(after.auth, k)
            <==> if NeedsMove(disk) && authWrites
                 then exists id :: !IsBlank(id)
                        && k in StoredSet(LoadAuth(disk.auth), id) + InlineUnder(Entries(disk), id)
                 else InAuth(disk.auth, k)
  {
    if NeedsMove(disk) && authWrites {
      GatheredInline(disk);
      var s := LoadAuth(disk.auth);
      var deposited := DepositAll(s, Gathered(disk));
      forall id
        ensures StoredSet(LoadAuth(after.auth), id)
             == if IsBlank(id) then {} else StoredSet(s, id) + InlineUnder(Entries(disk), id)
      {
        SaveLoadRoundTrip(deposited, after.auth, id);
        assert StoredSet(deposited, id) == StoredSet(s, id) + InlineUnder(Entries(disk), id);
      }
      hide StoredSet, InlineUnder;
    }
  }

  /**
   A key held inline by some entry is in neither file after the load exactly when the config file is
   rewritten, the legacy block does not hold the key, and the auth file has not got it: it had it before,
   or it was written and some non-blank id has it stored or inline.
  */
  lemma LostKey(disk: Disk, authWrites: bool, configWrites: bool, after: Disk, result: Loaded, k: string)
    requires LoadOutcome(disk, authWrites, configWrites, after, result) && InEntries(Entries(disk), k)
    ensures !InAuth(after.auth, k) && !InConfig(after.config, k)
            <==> Rewrites(disk, authWrites, configWrites) && k !in KeySet(Inline(disk.config.legacy))
                 && if NeedsMove(disk) && authWrites
                    then forall id :: !IsBlank(id) ==>
                           k !in StoredSet(LoadAuth(disk.auth), id) + InlineUnder(Entries(disk), id)
                    else !InAuth(disk.auth, k)
  {
    hide LoadOutcome, InAuth, KeySet, StoredSet, InlineUnder, NeedsMove;
    KeptInConfig(disk, authWrites, configWrites, after, result, k);
    KeptInAuth(disk, authWrites, configWrites, after, result, k);
  }

  /** An unwritable auth file and another migration due: the only key of the one entry is gone. */
  lemma LostWithoutAuthWrite(after: Disk, result: Loaded)
    requires LoadOutcome(OneKey("", true), false, true, after, result)
    ensures "secret" in KeySet(Inline(Entries(OneKey("", true))[0]))
    ensures !InAuth(after.auth, "secret") && !InConfig(after.config, "secret")
  {
    var disk := OneKey("", true);
    OneKeyHeld("", true);
    LostKey(disk, false, true, after, result, "secret");
  }

  /** Both writes succeed, the log calls the file shareable, and the legacy block's key is still in it. */
  lemma LegacyKeyStays(after: Disk, result: Loaded)
    requires LoadOutcome(OneKey("old", false), true, true, after, result)
    ensures NeedsMove(OneKey("old", false)) && after.config != OneKey("old", false).config
    ensures InConfig(after.config, "old") && !InConfig(after.config, "secret")
  {
    var disk := OneKey("old", false);
    OneKeyHeld("old", false);
    GatheredInline(disk);
    InlineUnderHas(Entries(disk), 0);
    assert !(InlineUnder(Entries(disk), "p") <= StoredSet(LoadAuth(disk.auth), "p"));
    KeptInConfig(disk, true, true, after, result, "old");
    KeptInConfig(disk, true, true, after, result, "secret");
    assert InEntries(disk.config.providers, "secret");
    assert InConfig(disk.config, "secret");
  }

  /** One entry with the inline key `secret`, a legacy block, and no auth file. */
  function OneKey(legacyKey: string, dirty: bool): Disk {
    Disk(ConfigFile([Provider("p", "openai", "m", "secret", [], [])], Provider("", "openai", "m", legacyKey, [], []),
                    "p", "m", dirty), Unreadable)
  }

  lemma OneKeyHeld(legacyKey: string, dirty: bool)
    requires legacyKey == "" || legacyKey == "old"
    ensures var disk := OneKey(legacyKey, dirty);
      && Entries(disk) == disk.config.providers && |Entries(disk)| == 1 && EffectiveId(Entries(disk)[0]) == "p"
      && KeySet(Inline(Entries(disk)[0])) == {"secret"}
      && KeySet(Inline(disk.config.legacy)) == (if legacyKey == "" then {} else {"old"})
      && !InAuth(disk.auth, "secret") && !InAuth(disk.auth, "old") && !IsBlank("p")
  {
    TrimsToItself("secret");
    TrimsToItself("old");
    TrimsToItself("p");
    assert IsBlank("");
    var disk := OneKey(legacyKey, dirty);
    assert Inline(Entries(disk)[0]) == ["secret"];
    assert Inline(disk.config.legacy) == if legacyKey == "" then [] else ["old"];
    assert KeySet([]) == {};
  }

  lemma TrimsToItself(s: string)
    requires |s| > 0 && !IsWhite(s[0]) && !IsWhite(s[|s| - 1])
    ensures Trim(s) == s && !IsBlank(s)
  {
  }
}
