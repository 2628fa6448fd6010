/**
 What a load leaves of everything besides the keys, and the order keys are tried in (src/config.rs:193-230,
 1884-1926, 1956-1980, 2010-2020), stated on the files before and after.
*/
module KeyEffects {
  import opened Text
  import opened RustText
  import opened KeyStore

  // ---- the order of keys ----------------------------------------------------------------------

  /** Position `i` holds a visible key that, trimmed, is not held before it. */
  ghost predicate FirstKey(all: seq<string>, i: nat) {
    i < |all| && !Blank(all[i]) && forall j :: 0 <= j < i && !Blank(all[j]) ==> Trim(all[j]) != Trim(all[i])
  }

  /** The visible keys of `all`, trimmed, each once and in order. */
  ghost predicate KeysInOrder(all: seq<string>, keys: seq<string>, at: seq<nat>) {
    && |at| == |keys|
    && (forall k, n :: 0 <= k < n < |at| ==> at[k] < at[n])
    && (forall i: nat :: i in at <==> FirstKey(all, i))
    && forall k :: 0 <= k < |at| ==> at[k] < |all| && keys[k] == Trim(all[at[k]])
  }

  lemma KeyNext(init: seq<string>, last: string, keys: seq<string>, at: seq<nat>)
    requires KeysInOrder(init, keys, at)
    ensures Blank(last) || Trim(last) in keys ==> KeysInOrder(init + [last], keys, at)
    ensures !Blank(last) && Trim(last) !in keys ==> KeysInOrder(init + [last], keys + [Trim(last)], at + [|init|])
  {
    hide Blank;
    var all := init + [last];
    forall i: nat | i < |init| ensures FirstKey(all, i) <==> FirstKey(init, i) {
      assert forall j :: 0 <= j <= i ==> all[j] == init[j];
    }
    assert forall j :: 0 <= j < |init| ==> all[j] == init[j];
    assert Trim(last) in keys <==> exists j :: 0 <= j < |init| && !Blank(init[j]) && Trim(init[j]) == Trim(last) by {
      if Trim(last) in keys {
        var k :| 0 <= k < |keys| && keys[k] == Trim(last);
        assert at[k] in at && FirstKey(init, at[k]);
      }
      if exists j :: 0 <= j < |init| && !Blank(init[j]) && Trim(init[j]) == Trim(last) {
        var j :| 0 <= j < |init| && !Blank(init[j]) && Trim(init[j]) == Trim(last);
        FirstExists(init, j);
        var i: nat :| FirstKey(init, i) && Trim(init[i]) == Trim(last);
        assert i in at;
        var k :| 0 <= k < |at| && at[k] == i;
        assert keys[k] == Trim(last);
      }
    }
    forall k | 0 <= k < |at| ensures at[k] < |init| { assert at[k] in at; }
    assert forall i: nat :: i in at + [|init|] <==> i in at || i == |init|;
  }

  lemma {:induction false} FirstExists(all: seq<string>, j: nat)
    requires j < |all| && !Blank(all[j])
    ensures exists i: nat :: FirstKey(all, i) && Trim(all[i]) == Trim(all[j])
  {
    if n :| 0 <= n < j && !Blank(all[n]) && Trim(all[n]) == Trim(all[j]) {
      FirstExists(all, n);
    } else {
      assert FirstKey(all, j);
    }
  }

  lemma {:induction false} AddedInOrder(all: seq<string>) returns (at: seq<nat>)
    ensures KeysInOrder(all, AddKeys([], all), at)
  {
    if |all| == 0 {
      at := [];
    } else {
      var init, last := all[..|all| - 1], all[|all| - 1];
      var before := AddedInOrder(init);
      BlankIsBlank(last);
      KeyNext(init, last, AddKeys([], init), before);
      assert all == init + [last];
      at := if IsBlank(last) || Trim(last) in AddKeys([], init) then before else before + [|init|];
    }
  }

  /** The keys of an entry are tried in this order: its inline key, its further ones, those of the auth file. */
  lemma CandidateOrder(p: Provider) returns (at: seq<nat>)
    ensures KeysInOrder([p.apiKey] + p.apiKeys + p.authFileKeys, KeyCandidates(p), at)
  {
    at := AddedInOrder([p.apiKey] + p.apiKeys + p.authFileKeys);
  }

  // ---- what a load leaves alone ------------------------------------------------------------------

  /** The legacy block becomes the only entry when there is none and it has a key. */
  predicate Folds(c: ConfigFile) { c.providers == [] && c.legacy.apiKey != "" }

  /** The entry as before, its inline keys gone if it had any, whatever it learned from the auth file. */
  ghost predicate Emptied(p: Provider, q: Provider) {
    q == p.(apiKey := q.apiKey, apiKeys := q.apiKeys, authFileKeys := q.authFileKeys)
    && if Blank(p.apiKey) && p.apiKeys == [] then q.apiKey == p.apiKey && q.apiKeys == []
       else q.apiKey == "" && q.apiKeys == []
  }

  /** Entries, defaults and legacy block of the loaded configuration or of the file that was rewritten. */
  ghost predicate Carried(c: ConfigFile, d: ConfigFile) {
    && (if Folds(c) then |d.providers| == 1 && Emptied(c.legacy, d.providers[0])
        else |d.providers| == |c.providers|
             && forall i :: 0 <= i < |c.providers| ==> Emptied(c.providers[i], d.providers[i]))
    && d.legacy == c.legacy.(authFileKeys := d.legacy.authFileKeys)
    && d.defaultProvider
       == (if Folds(c) && c.defaultProvider == "" then c.legacy.providerType else c.defaultProvider)
    && d.defaultModel == (if Folds(c) && c.defaultModel == "" then c.legacy.model else c.defaultModel)
  }

  lemma ClearedIs(p: Provider, q: Provider)
    requires q == Cleared(p).(authFileKeys := q.authFileKeys)
    ensures Emptied(p, q)
  {
    BlankIsBlank(p.apiKey);
  }

  lemma MemoryCarries(disk: Disk, auth: AuthFile, migrated: bool)
    ensures Carried(disk.config, InMemory(disk, auth, migrated))
  {
    hide MergeKeys, LoadAuth, Emptied, EffectiveId, Inline;
    var c, d := WithLegacy(disk.config), InMemory(disk, auth, migrated);
    forall i | 0 <= i < |c.providers| ensures Emptied(c.providers[i], d.providers[i]) {
      MergedThenCleared(c.providers[i], LoadAuth(disk.auth), LoadAuth(auth));
    }
  }

  lemma MergedThenCleared(p: Provider, stored: Store, later: Store)
    ensures Emptied(p, Cleared(Merge(p, stored))) && Emptied(p, Merge(Cleared(Merge(p, stored)), later))
  {
    hide MergeKeys, EffectiveId;
    BlankIsBlank(p.apiKey);
  }

  lemma FileCarries(c: ConfigFile, d: ConfigFile)
    requires Carried(c, d) && (Folds(c) ==> d.providers != [])
    requires Folds(c) || c.providers != [] || c.legacy.apiKey == ""
    ensures var saved := Serialize(d);
            && Carried(c, saved) && saved.legacy.authFileKeys == []
            && forall i :: 0 <= i < |saved.providers| ==> saved.providers[i].authFileKeys == []
  {
    assert WithLegacy(d) == d;
  }

  /**
   A load keeps everything but inline keys: the entries with their ids, types and models, the legacy block,
   and the defaults, which a folded legacy block fills in. It rewrites the config file exactly when it may
   and there is reason to, fails exactly when it may not although there is, and what it writes carries no
   keys of the auth file.
  */
  lemma LoadCarries(disk: Disk, authWrites: bool, configWrites: bool, after: Disk, result: Loaded)
    requires LoadOutcome(disk, authWrites, configWrites, after, result)
    ensures result == Refused <==> !configWrites && (disk.config.dirty || (NeedsMove(disk) && authWrites))
    ensures result.Config? ==> Carried(disk.config, result.config)
    ensures !Rewrites(disk, authWrites, configWrites) ==> after.config == disk.config
    ensures Rewrites(disk, authWrites, configWrites) ==>
              && Carried(disk.config, after.config) && !after.config.dirty && after.config.legacy.authFileKeys == []
              && forall i :: 0 <= i < |after.config.providers| ==> after.config.providers[i].authFileKeys == []
    ensures !(NeedsMove(disk) && authWrites) ==> after.auth == disk.auth
  {
    hide NeedsMove, Carried, InMemory, SavedAs;
    var migrated := NeedsMove(disk) && authWrites;
    MemoryCarries(disk, after.auth, migrated);
    if Rewrites(disk, authWrites, configWrites) {
      NothingToFold(disk, after.auth, migrated);
      FileCarries(disk.config, InMemory(disk, after.auth, migrated));
    }
  }

  lemma NothingToFold(disk: Disk, auth: AuthFile, migrated: bool)
    ensures var c := disk.config;
            && (Folds(c) ==> InMemory(disk, auth, migrated).providers != [])
            && (Folds(c) || c.providers != [] || c.legacy.apiKey == "")
  {
  }

  // ---- names and the legacy block --------------------------------------------------------------------

  /** An entry goes by its id without the white space around it, or by its type if that leaves nothing. */
  ghost predicate GoesBy(p: Provider, name: string) {
    if Blank(p.id) then name == p.providerType else TrimmedBy(p.id, name, IsWhite)
  }

  lemma GoesByItsId(p: Provider, name: string)
    ensures EffectiveId(p) == name <==> GoesBy(p, name)
  {
    BlankIsBlank(p.id);
    TrimByIs(p.id, name, IsWhite);
  }

  /** The legacy block learns the keys stored under its name, like every entry. */
  lemma LegacyLearns(disk: Disk, authWrites: bool, configWrites: bool, after: Disk, config: ConfigFile)
    requires FileForm(disk.config) && LoadOutcome(disk, authWrites, configWrites, after, Config(config))
    ensures KeySet(config.legacy.authFileKeys) == StoredSet(LoadAuth(disk.auth), EffectiveId(disk.config.legacy))
  {
    hide LoadAuth, EffectiveId;
    MergedSet(disk.config.legacy, LoadAuth(disk.auth));
    assert KeySet([]) == {};
  }

  // ---- the order of keys learned -----------------------------------------------------------------------

  lemma {:induction false} MergedOrder(keys: seq<string>, more: seq<string>)
    ensures |MergeKeys(keys, more)| >= |keys| && MergeKeys(keys, more)[..|keys|] == keys
    ensures keys == [] && (forall i, j :: 0 <= i < j < |more| ==> more[i] != more[j]) ==> MergeKeys(keys, more) == more
  {
    if |more| > 0 {
      var init, last := more[..|more| - 1], more[|more| - 1];
      MergedOrder(keys, init);
      assert more == init + [last];
      if keys == [] && forall i, j :: 0 <= i < j < |more| ==> more[i] != more[j] {
        assert forall i, j :: 0 <= i < j < |init| ==> init[i] == more[i] && init[j] == more[j];
        assert last !in init;
      }
    }
  }

  /** A load that moves nothing leaves each entry the keys stored under its name, in ascending order. */
  lemma LearnedInOrder(disk: Disk, configWrites: bool, after: Disk, config: ConfigFile, authWrites: bool, i: nat)
    requires FileForm(disk.config) && i < |Entries(disk)| && !(NeedsMove(disk) && authWrites)
    requires LoadOutcome(disk, authWrites, configWrites, after, Config(config))
    ensures |config.providers| == |Entries(disk)|
    ensures var stored, id := LoadAuth(disk.auth), EffectiveId(Entries(disk)[i]);
            config.providers[i].authFileKeys == (if id in stored then stored[id] else [])
            && Ascending(config.providers[i].authFileKeys)
  {
    hide EffectiveId, NeedsMove;
    var stored, id := LoadAuth(disk.auth), EffectiveId(Entries(disk)[i]);
    LoadAuthClean(disk.auth);
    if id in stored { LoadTableKeys(disk.auth.entries[id]); }
    MergedOrder([], Bucket(stored, id));
  }
}
