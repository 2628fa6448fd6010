/**
 The settings round trip (src/config.rs:1767-1857, 2557-2607): the configuration goes to the browser
 without secrets, and what comes back gets them restored from the live one. Entries find their secrets
 by identity, the first match winning, so the round trip is exact only up to that.
*/
module SecretRedaction {
  import opened RustText

  /** `settings` stands for the fields neither direction touches. */
  datatype Provider = Provider(id: string, name: Option<string>, providerType: string, baseUrl: string,
                               models: seq<string>, apiKey: string, apiKeys: seq<string>,
                               authFileKeys: seq<string>, oauthClientSecret: Option<string>,
                               customHeaders: Option<map<string, string>>, settings: string)

  datatype Server = Server(password: string, jwtSecret: string, settings: string)
  datatype Telegram = Telegram(botToken: string, settings: string)
  datatype Discord = Discord(token: string, githubToken: string, settings: string)
  datatype Github = Github(token: string, tokenRefresh: string, tokenExpiresAt: int, tokenClientId: string,
                           settings: string)
  datatype McpServer = McpServer(name: string, env: map<string, string>, headers: map<string, string>,
                                 settings: string)

  datatype Config = Config(server: Server, provider: Provider, providers: seq<Provider>,
                           telegram: Option<Telegram>, discord: Option<Discord>, github: Github,
                           mcp: seq<McpServer>, settings: string)

  // ---- towards the browser -----------------------------------------------------------

  /** `redact_provider_config`. */
  function RedactProvider(p: Provider): Provider {
    p.(apiKey := "", apiKeys := [], authFileKeys := [], oauthClientSecret := None, customHeaders := None)
  }

  function RedactMcp(m: McpServer): McpServer { m.(env := map[], headers := map[]) }

  function RedactProviders(ps: seq<Provider>): (r: seq<Provider>)
    ensures |r| == |ps|
  {
    seq(|ps|, i requires 0 <= i < |ps| => RedactProvider(ps[i]))
  }

  function RedactServers(ms: seq<McpServer>): (r: seq<McpServer>)
    ensures |r| == |ms|
  {
    seq(|ms|, i requires 0 <= i < |ms| => RedactMcp(ms[i]))
  }

  /** `redacted_for_api`. */
  function Redacted(c: Config): Config {
    c.(server := c.server.(password := "", jwtSecret := ""),
       provider := RedactProvider(c.provider),
       providers := RedactProviders(c.providers),
       telegram := if c.telegram.Some? then Some(c.telegram.value.(botToken := "")) else None,
       discord := if c.discord.Some? then Some(c.discord.value.(token := "", githubToken := "")) else None,
       github := c.github.(token := "", tokenRefresh := ""),
       mcp := RedactServers(c.mcp))
  }

  // ---- and back --------------------------------------------------------------------------

  function EffectiveId(p: Provider): string {
    if IsBlank(p.id) then p.providerType else Trim(p.id)
  }

  /** `provider_identity_matches`. */
  predicate IdentityMatches(left: Provider, right: Provider) {
    || (!IsBlank(left.id) && EffectiveId(left) == EffectiveId(right))
    || (left.providerType == right.providerType && left.baseUrl == right.baseUrl)
  }

  function OrElse(incoming: string, current: string): string { if IsBlank(incoming) then current else incoming }

  function OrIfNone<T>(incoming: Option<T>, current: Option<T>): Option<T> {
    if incoming.None? then current else incoming
  }

  function OrIfEmpty<T>(incoming: seq<T>, current: seq<T>): seq<T> { if |incoming| == 0 then current else incoming }

  /** `preserve_provider_secrets`. */
  function PreserveProvider(incoming: Provider, current: Provider): Provider {
    incoming.(apiKey := OrElse(incoming.apiKey, current.apiKey),
              apiKeys := OrIfEmpty(incoming.apiKeys, current.apiKeys),
              authFileKeys := current.authFileKeys,
              id := OrElse(incoming.id, current.id),
              name := OrIfNone(incoming.name, current.name),
              models := OrIfEmpty(incoming.models, current.models),
              oauthClientSecret := OrIfNone(incoming.oauthClientSecret, current.oauthClientSecret),
              customHeaders := OrIfNone(incoming.customHeaders, current.customHeaders))
  }

  /** Position of the first entry of `ps` whose identity matches, `|ps|` when there is none. */
  function FirstMatch(ps: seq<Provider>, p: Provider): (i: nat)
    ensures i <= |ps|
    ensures i < |ps| ==> IdentityMatches(ps[i], p)
    ensures forall j :: 0 <= j < i ==> !IdentityMatches(ps[j], p)
  {
    if |ps| == 0 || IdentityMatches(ps[0], p) then 0 else 1 + FirstMatch(ps[1..], p)
  }

  function FirstNamed(ms: seq<McpServer>, name: string): (i: nat)
    ensures i <= |ms|
    ensures i < |ms| ==> ms[i].name == name
    ensures forall j :: 0 <= j < i ==> ms[j].name != name
  {
    if |ms| == 0 || ms[0].name == name then 0 else 1 + FirstNamed(ms[1..], name)
  }

  function PreserveEntry(p: Provider, current: seq<Provider>): Provider {
    var i := FirstMatch(current, p);
    if i < |current| then PreserveProvider(p, current[i]) else p
  }

  function PreserveMcp(m: McpServer, current: seq<McpServer>): McpServer {
    var i := FirstNamed(current, m.name);
    if i < |current| then
      m.(env := if m.env == map[] then current[i].env else m.env,
         headers := if m.headers == map[] then current[i].headers else m.headers)
    else m
  }

  function PreserveEntries(ps: seq<Provider>, current: seq<Provider>): (r: seq<Provider>)
    ensures |r| == |ps|
  {
    seq(|ps|, i requires 0 <= i < |ps| => PreserveEntry(ps[i], current))
  }

  function PreserveServers(ms: seq<McpServer>, current: seq<McpServer>): (r: seq<McpServer>)
    ensures |r| == |ms|
  {
    seq(|ms|, i requires 0 <= i < |ms| => PreserveMcp(ms[i], current))
  }

  function PreserveGithub(g: Github, current: Github): Github {
    g.(token := OrElse(g.token, current.token),
       tokenRefresh := OrElse(g.tokenRefresh, current.tokenRefresh),
       tokenExpiresAt := if g.tokenExpiresAt == 0 then current.tokenExpiresAt else g.tokenExpiresAt,
       tokenClientId := OrElse(g.tokenClientId, current.tokenClientId))
  }

  /** What `preserve_secrets_from` leaves in `self`. */
  function Preserved(c: Config, current: Config): Config {
    c.(server := c.server.(password := OrElse(c.server.password, current.server.password),
                           jwtSecret := OrElse(c.server.jwtSecret, current.server.jwtSecret)),
       provider := if IdentityMatches(c.provider, current.provider)
                   then PreserveProvider(c.provider, current.provider) else c.provider,
       providers := PreserveEntries(c.providers, current.providers),
       telegram := if c.telegram.Some? && current.telegram.Some?
                   then Some(c.telegram.value.(botToken :=
                          OrElse(c.telegram.value.botToken, current.telegram.value.botToken)))
                   else c.telegram,
       discord := if c.discord.Some? && current.discord.Some?
                  then Some(c.discord.value.(token := OrElse(c.discord.value.token, current.discord.value.token),
                         githubToken := OrElse(c.discord.value.githubToken, current.discord.value.githubToken)))
                  else c.discord,
       github := PreserveGithub(c.github, current.github),
       mcp := PreserveServers(c.mcp, current.mcp))
  }

  /** The incoming configuration, updated in place. */
  class Incoming {
    var config: Config

    constructor (config: Config)
      ensures this.config == config
    {
      this.config := config;
    }

    /** `preserve_secrets_from`. */
    method PreserveSecretsFrom(current: Config)
      modifies this
      ensures config == Preserved(old(config), current)
    {
      var server := config.server;
      if IsBlank(server.password) { server := server.(password := current.server.password); }
      if IsBlank(server.jwtSecret) { server := server.(jwtSecret := current.server.jwtSecret); }
      var provider := config.provider;
      if IdentityMatches(provider, current.provider) {
        provider := PreserveProvider(provider, current.provider);
      }
      var providers := RestoreProviders(config.providers, current.providers);
      var telegram, discord := config.telegram, config.discord;
      if telegram.Some? && current.telegram.Some? && IsBlank(telegram.value.botToken) {
        telegram := Some(telegram.value.(botToken := current.telegram.value.botToken));
      }
      if discord.Some? && current.discord.Some? {
        if IsBlank(discord.value.token) {
          discord := Some(discord.value.(token := current.discord.value.token));
        }
        if IsBlank(discord.value.githubToken) {
          discord := Some(discord.value.(githubToken := current.discord.value.githubToken));
        }
      }
      var github := PreserveGithub(config.github, current.github);
      var mcp := RestoreServers(config.mcp, current.mcp);
      config := Config(server, provider, providers, telegram, discord, github, mcp, config.settings);
    }
  }

  /** `current.providers.iter().find(...)`, as a position. */
  method FindMatch(current: seq<Provider>, p: Provider) returns (j: nat)
    ensures j == FirstMatch(current, p)
  {
    j := 0;
    while j < |current| && !IdentityMatches(current[j], p)
      invariant j <= |current|
      invariant forall k :: 0 <= k < j ==> !IdentityMatches(current[k], p)
    {
      j := j + 1;
    }
  }

  /** The loop over `self.providers`, with `find` on the live ones. */
  method RestoreProviders(ps: seq<Provider>, current: seq<Provider>) returns (r: seq<Provider>)
    ensures r == PreserveEntries(ps, current)
  {
    r := ps;
    for i := 0 to |ps|
      invariant |r| == |ps|
      invariant forall k :: 0 <= k < i ==> r[k] == PreserveEntry(ps[k], current)
      invariant forall k :: i <= k < |ps| ==> r[k] == ps[k]
    {
      var j := FindMatch(current, ps[i]);
      if j < |current| { r := r[i := PreserveProvider(ps[i], current[j])]; }
    }
  }

  method RestoreServers(ms: seq<McpServer>, current: seq<McpServer>) returns (r: seq<McpServer>)
    ensures r == PreserveServers(ms, current)
  {
    r := ms;
    for i := 0 to |ms|
      invariant |r| == |ms|
      invariant forall k :: 0 <= k < i ==> r[k] == PreserveMcp(ms[k], current)
      invariant forall k :: i <= k < |ms| ==> r[k] == ms[k]
    {
      var j := 0;
      while j < |current| && current[j].name != ms[i].name
        invariant j <= |current|
        invariant forall k :: 0 <= k < j ==> current[k].name != ms[i].name
      {
        j := j + 1;
      }
      assert j == FirstNamed(current, ms[i].name);
      if j < |current| { r := r[i := PreserveMcp(ms[i], current)]; }
    }
  }

  // ---- the round trip -------------------------------------------------------------------------

  /** The two entries agree on everything the round trip takes from the matched one. */
  predicate Interchangeable(own: Provider, matched: Provider) {
    && own.apiKey == matched.apiKey && own.apiKeys == matched.apiKeys
    && own.authFileKeys == matched.authFileKeys
    && own.oauthClientSecret == matched.oauthClientSecret && own.customHeaders == matched.customHeaders
    && (IsBlank(own.id) ==> own.id == matched.id)
    && (own.name.None? ==> matched.name.None?)
    && (|own.models| == 0 ==> |matched.models| == 0)
  }

  /** The entry that will be found for `ps[i]`: an earlier one with the same identity, or itself. */
  predicate FirstOfItsKind(ps: seq<Provider>, j: nat, i: nat) {
    && j <= i < |ps| && IdentityMatches(ps[j], ps[i])
    && forall k :: 0 <= k < j ==> !IdentityMatches(ps[k], ps[i])
  }

  /** Every entry is interchangeable with the first one of its identity, and so are same-named servers. */
  ghost predicate Restorable(c: Config) {
    && (forall i: nat, j: nat :: FirstOfItsKind(c.providers, j, i) ==> Interchangeable(c.providers[i], c.providers[j]))
    && (forall i: nat :: i < |c.mcp| ==>
          var j := FirstNamed(c.mcp, c.mcp[i].name);
          j < |c.mcp| ==> c.mcp[i].env == c.mcp[j].env && c.mcp[i].headers == c.mcp[j].headers)
  }

  lemma BlankEmpty()
    ensures IsBlank("")
  {
  }

  lemma MatchesSelf(p: Provider)
    ensures IdentityMatches(p, RedactProvider(p))
    ensures PreserveProvider(RedactProvider(p), p) == p
  {
    BlankEmpty();
  }

  lemma FindsFirst(ps: seq<Provider>, i: nat)
    requires i < |ps|
    ensures FirstOfItsKind(ps, FirstMatch(ps, RedactProvider(ps[i])), i)
    ensures forall j: nat :: FirstOfItsKind(ps, j, i) ==> j == FirstMatch(ps, RedactProvider(ps[i]))
  {
    forall q: Provider ensures IdentityMatches(q, RedactProvider(ps[i])) <==> IdentityMatches(q, ps[i]) {}
    MatchesSelf(ps[i]);
  }

  lemma EntryRestored(p: Provider, matched: Provider)
    ensures PreserveProvider(RedactProvider(p), matched) == p <==> Interchangeable(p, matched)
  {
    BlankEmpty();
  }

  lemma ProvidersRestored(ps: seq<Provider>)
    ensures PreserveEntries(RedactProviders(ps), ps) == ps
            <==> forall i: nat, j: nat :: FirstOfItsKind(ps, j, i) ==> Interchangeable(ps[i], ps[j])
  {
    var restored := PreserveEntries(RedactProviders(ps), ps);
    forall i: nat | i < |ps|
      ensures restored[i] == ps[i]
              <==> forall j: nat :: FirstOfItsKind(ps, j, i) ==> Interchangeable(ps[i], ps[j])
    {
      FindsFirst(ps, i);
      EntryRestored(ps[i], ps[FirstMatch(ps, RedactProvider(ps[i]))]);
    }
    if restored == ps {
      forall i: nat, j: nat | FirstOfItsKind(ps, j, i) ensures Interchangeable(ps[i], ps[j]) {
        assert restored[i] == ps[i];
      }
    }
  }

  lemma ServersRestored(ms: seq<McpServer>)
    ensures PreserveServers(RedactServers(ms), ms) == ms
            <==> forall i: nat :: i < |ms| ==>
                   var j := FirstNamed(ms, ms[i].name);
                   j < |ms| ==> ms[i].env == ms[j].env && ms[i].headers == ms[j].headers
  {
    var restored := PreserveServers(RedactServers(ms), ms);
    forall i: nat | i < |ms|
      ensures restored[i] == ms[i]
              <==> var j := FirstNamed(ms, ms[i].name);
                   j < |ms| ==> ms[i].env == ms[j].env && ms[i].headers == ms[j].headers
    {
      assert FirstNamed(ms, ms[i].name) <= i;
    }
    if restored == ms {
      forall i: nat | i < |ms| ensures restored[i] == ms[i] {}
    }
  }

  /** Restoring a redacted copy from its original gives the original exactly when it is restorable. */
  lemma RoundTrip(c: Config)
    ensures Preserved(Redacted(c), c) == c <==> Restorable(c)
  {
    BlankEmpty();
    MatchesSelf(c.provider);
    ProvidersRestored(c.providers);
    ServersRestored(c.mcp);
    var r := Preserved(Redacted(c), c);
    assert r == c.(providers := r.providers, mcp := r.mcp);
  }

  /** No two entries share type and endpoint, no explicit id is another's identity, server names differ. */
  ghost predicate DistinctIdentities(c: Config) {
    && (forall i, j :: 0 <= i < |c.providers| && 0 <= j < |c.providers| && i != j ==>
          !IdentityMatches(c.providers[j], c.providers[i]))
    && forall i, j :: 0 <= i < j < |c.mcp| ==> c.mcp[i].name != c.mcp[j].name
  }

  /** Distinct identities are enough. */
  lemma DistinctRoundTrip(c: Config)
    requires DistinctIdentities(c)
    ensures Preserved(Redacted(c), c) == c
  {
    forall i: nat, j: nat | FirstOfItsKind(c.providers, j, i)
      ensures Interchangeable(c.providers[i], c.providers[j])
    {
      assert i == j;
    }
    forall i: nat | i < |c.mcp| ensures FirstNamed(c.mcp, c.mcp[i].name) == i {
      assert FirstNamed(c.mcp, c.mcp[i].name) <= i;
    }
    RoundTrip(c);
  }

  /** Two entries for one endpoint: the second comes back with the first one's key. */
  lemma SharedEndpointSwapsKeys(c: Config, first: Provider, second: Provider)
    requires c.providers == [first, second]
    requires first.providerType == second.providerType && first.baseUrl == second.baseUrl
    requires first.apiKey != second.apiKey
    ensures Preserved(Redacted(c), c).providers[1].apiKey == first.apiKey
    ensures Preserved(Redacted(c), c) != c
  {
    BlankEmpty();
    assert FirstMatch(c.providers, RedactProvider(second)) == 0;
  }

  // ---- what the browser typed in -----------------------------------------------------------------

  /** Every field of `p` that restoring may fill is in `q` as it is in `p`, unless `p` leaves it empty. */
  predicate ProviderHonoured(p: Provider, q: Provider) {
    && (!IsBlank(p.apiKey) ==> q.apiKey == p.apiKey)
    && (p.apiKeys != [] ==> q.apiKeys == p.apiKeys)
    && (!IsBlank(p.id) ==> q.id == p.id)
    && (p.name.Some? ==> q.name == p.name)
    && (p.models != [] ==> q.models == p.models)
    && (p.oauthClientSecret.Some? ==> q.oauthClientSecret == p.oauthClientSecret)
    && (p.customHeaders.Some? ==> q.customHeaders == p.customHeaders)
    && q.providerType == p.providerType && q.baseUrl == p.baseUrl && q.settings == p.settings
  }

  predicate McpHonoured(m: McpServer, n: McpServer) {
    && (m.env != map[] ==> n.env == m.env)
    && (m.headers != map[] ==> n.headers == m.headers)
    && n.name == m.name && n.settings == m.settings
  }

  predicate GithubHonoured(g: Github, h: Github) {
    && (!IsBlank(g.token) ==> h.token == g.token)
    && (!IsBlank(g.tokenRefresh) ==> h.tokenRefresh == g.tokenRefresh)
    && (g.tokenExpiresAt != 0 ==> h.tokenExpiresAt == g.tokenExpiresAt)
    && (!IsBlank(g.tokenClientId) ==> h.tokenClientId == g.tokenClientId)
    && h.settings == g.settings
  }

  predicate TelegramHonoured(t: Telegram, u: Telegram) {
    && (!IsBlank(t.botToken) ==> u.botToken == t.botToken)
    && u.settings == t.settings
  }

  predicate DiscordHonoured(d: Discord, e: Discord) {
    && (!IsBlank(d.token) ==> e.token == d.token)
    && (!IsBlank(d.githubToken) ==> e.githubToken == d.githubToken)
    && e.settings == d.settings
  }

  predicate ServerHonoured(s: Server, t: Server) {
    && (!IsBlank(s.password) ==> t.password == s.password)
    && (!IsBlank(s.jwtSecret) ==> t.jwtSecret == s.jwtSecret)
    && t.settings == s.settings
  }

  /** Whatever `c` has filled in is in `d`, entry by entry, and `d` has no section or entry of its own. */
  predicate Honoured(c: Config, d: Config) {
    && ServerHonoured(c.server, d.server)
    && ProviderHonoured(c.provider, d.provider)
    && |d.providers| == |c.providers|
    && (forall i :: 0 <= i < |c.providers| ==> ProviderHonoured(c.providers[i], d.providers[i]))
    && (if c.telegram.Some? then d.telegram.Some? && TelegramHonoured(c.telegram.value, d.telegram.value)
        else d.telegram.None?)
    && (if c.discord.Some? then d.discord.Some? && DiscordHonoured(c.discord.value, d.discord.value)
        else d.discord.None?)
    && GithubHonoured(c.github, d.github)
    && |d.mcp| == |c.mcp|
    && (forall i :: 0 <= i < |c.mcp| ==> McpHonoured(c.mcp[i], d.mcp[i]))
    && d.settings == c.settings
  }

  /** No field of `p` that the browser sees would be filled from `q`. */
  predicate NothingToFill(p: Provider, q: Provider) {
    && (IsBlank(p.id) ==> q.id == p.id)
    && (p.name.None? ==> q.name.None?)
    && (p.models == [] ==> q.models == [])
  }

  /** The browser left no field empty that it can see and that the live configuration fills. */
  predicate LeavesNothingOpen(c: Config, current: Config) {
    && (IdentityMatches(c.provider, current.provider) ==> NothingToFill(c.provider, current.provider))
    && (forall i :: 0 <= i < |c.providers| ==>
          var j := FirstMatch(current.providers, c.providers[i]);
          j < |current.providers| ==> NothingToFill(c.providers[i], current.providers[j]))
    && (c.github.tokenExpiresAt == 0 ==> current.github.tokenExpiresAt == 0)
    && (IsBlank(c.github.tokenClientId) ==> current.github.tokenClientId == c.github.tokenClientId)
  }

  lemma FilledProvider(p: Provider, q: Provider)
    ensures ProviderHonoured(p, PreserveProvider(p, q))
    ensures RedactProvider(PreserveProvider(p, q)) == RedactProvider(p) <==> NothingToFill(p, q)
  {
  }

  lemma FilledEntries(ps: seq<Provider>, current: seq<Provider>)
    ensures forall i :: 0 <= i < |ps| ==> ProviderHonoured(ps[i], PreserveEntries(ps, current)[i])
    ensures RedactProviders(PreserveEntries(ps, current)) == RedactProviders(ps)
            <==> forall i :: 0 <= i < |ps| ==>
                   var j := FirstMatch(current, ps[i]);
                   j < |current| ==> NothingToFill(ps[i], current[j])
  {
    hide IdentityMatches, ProviderHonoured, NothingToFill;
    var shown, sent := RedactProviders(PreserveEntries(ps, current)), RedactProviders(ps);
    forall i: nat | i < |ps|
      ensures ProviderHonoured(ps[i], PreserveEntries(ps, current)[i])
      ensures shown[i] == sent[i]
              <==> var j := FirstMatch(current, ps[i]);
                   j < |current| ==> NothingToFill(ps[i], current[j])
    {
      var j := FirstMatch(current, ps[i]);
      if j < |current| { FilledProvider(ps[i], current[j]); } else { UntouchedProvider(ps[i]); }
    }
    if shown == sent {
      forall i: nat | i < |ps| ensures shown[i] == sent[i] {}
    }
  }

  lemma UntouchedProvider(p: Provider)
    ensures ProviderHonoured(p, p)
  {
  }

  lemma FilledServers(ms: seq<McpServer>, current: seq<McpServer>)
    ensures forall i :: 0 <= i < |ms| ==> McpHonoured(ms[i], PreserveServers(ms, current)[i])
    ensures RedactServers(PreserveServers(ms, current)) == RedactServers(ms)
  {
  }

  lemma FilledSections(c: Config, current: Config)
    ensures var d := Preserved(c, current);
            && ServerHonoured(c.server, d.server)
            && (if c.telegram.Some? then d.telegram.Some? && TelegramHonoured(c.telegram.value, d.telegram.value)
                else d.telegram.None?)
            && (if c.discord.Some? then d.discord.Some? && DiscordHonoured(c.discord.value, d.discord.value)
                else d.discord.None?)
            && GithubHonoured(c.github, d.github)
  {
    hide PreserveProvider, PreserveEntries, PreserveServers, IdentityMatches;
  }

  /**
   What the browser typed in wins over what was there, in every field, and the next time the settings are
   shown they are what the browser sent, exactly when it left no visible field open.
  */
  lemma TypedSecretsWin(c: Config, current: Config)
    ensures Honoured(c, Preserved(c, current))
    ensures Redacted(Preserved(c, current)) == Redacted(c) <==> LeavesNothingOpen(c, current)
  {
    FilledProvider(c.provider, current.provider);
    UntouchedProvider(c.provider);
    FilledEntries(c.providers, current.providers);
    FilledServers(c.mcp, current.mcp);
    FilledSections(c, current);
    ShownAgain(c, current);
    hide ProviderHonoured, ServerHonoured, McpHonoured, GithubHonoured, DiscordHonoured, TelegramHonoured;
    hide NothingToFill, IdentityMatches, PreserveProvider, RedactProvider, RedactProviders, RedactServers;
    hide PreserveGithub, Redacted, PreserveServers, PreserveEntries, FirstMatch;
  }

  /** What is shown after restoring differs from what was sent at most in providers and GitHub fields. */
  lemma ShownAgain(c: Config, current: Config)
    ensures var d := Preserved(c, current);
            Redacted(d) == Redacted(c)
            <==> && RedactProvider(d.provider) == RedactProvider(c.provider)
                 && RedactProviders(d.providers) == RedactProviders(c.providers)
                 && (c.github.tokenExpiresAt == 0 ==> current.github.tokenExpiresAt == 0)
                 && (IsBlank(c.github.tokenClientId) ==> current.github.tokenClientId == c.github.tokenClientId)
  {
    FilledServers(c.mcp, current.mcp);
    hide PreserveProvider, PreserveEntries, PreserveServers, IdentityMatches, RedactProvider, RedactProviders,
      RedactServers;
    var d := Preserved(c, current);
    var r, s := Redacted(d), Redacted(c);
    assert r.telegram == s.telegram && r.discord == s.discord && r.server == s.server && r.mcp == s.mcp;
    assert r == s.(provider := r.provider, providers := r.providers, github := r.github);
  }

  /** For instance: an entry sent without models shows those of the live one afterwards. */
  lemma EmptiedModelsReturn(c: Config, current: Config)
    requires IdentityMatches(c.provider, current.provider)
    requires c.provider.models == [] && current.provider.models != []
    ensures Preserved(c, current).provider.models == current.provider.models
    ensures Redacted(Preserved(c, current)) != Redacted(c)
  {
    TypedSecretsWin(c, current);
  }
}
