/**
 What the browser gets to see of the configuration and what comes back to it (src/config.rs:1767-1857,
 2546-2587), field by field: nothing secret goes out and nothing else is hidden; what is left empty comes
 back from the first live entry that has the same name or, failing a name, the same type and address.
*/
module SecretEffects {
  import opened Text
  import opened RustText
  import opened SecretRedaction

  // ---- towards the browser --------------------------------------------------------------------

  /** Everything of an entry but its keys, its client secret and its headers. */
  predicate ShownProvider(p: Provider, q: Provider) {
    && q.id == p.id && q.name == p.name && q.providerType == p.providerType && q.baseUrl == p.baseUrl
    && q.models == p.models && q.settings == p.settings
    && q.apiKey == "" && q.apiKeys == [] && q.authFileKeys == [] && q.oauthClientSecret == None
    && q.customHeaders == None
  }

  predicate ShownMcp(m: McpServer, n: McpServer) {
    n.name == m.name && n.settings == m.settings && n.env == map[] && n.headers == map[]
  }

  /** No secret is left in `d`, and all the rest of `c` is. */
  predicate Hides(c: Config, d: Config) {
    && d.server == Server("", "", c.server.settings)
    && ShownProvider(c.provider, d.provider)
    && |d.providers| == |c.providers|
    && (forall i :: 0 <= i < |c.providers| ==> ShownProvider(c.providers[i], d.providers[i]))
    && d.telegram == (if c.telegram.Some? then Some(Telegram("", c.telegram.value.settings)) else None)
    && d.discord == (if c.discord.Some? then Some(Discord("", "", c.discord.value.settings)) else None)
    && d.github == Github("", "", c.github.tokenExpiresAt, c.github.tokenClientId, c.github.settings)
    && |d.mcp| == |c.mcp| && (forall i :: 0 <= i < |c.mcp| ==> ShownMcp(c.mcp[i], d.mcp[i]))
    && d.settings == c.settings
  }

  lemma RedactedHides(c: Config)
    ensures Hides(c, Redacted(c))
  {
  }

  // ---- and back -----------------------------------------------------------------------------------

  /** The name an entry goes by: its id without the white space around it, or its type. */
  ghost predicate GoesBy(p: Provider, name: string) {
    if Blank(p.id) then name == p.providerType else TrimmedBy(p.id, name, IsWhite)
  }

  /** The left entry has an id and both go by one name, or both have one type and address. */
  ghost predicate SameEntry(left: Provider, right: Provider) {
    || (!Blank(left.id) && exists name :: GoesBy(left, name) && GoesBy(right, name))
    || (left.providerType == right.providerType && left.baseUrl == right.baseUrl)
  }

  lemma NameIs(p: Provider, name: string)
    ensures EffectiveId(p) == name <==> GoesBy(p, name)
  {
    BlankIsBlank(p.id);
    TrimByIs(p.id, name, IsWhite);
  }

  lemma MatchIs(live: Provider, p: Provider)
    ensures IdentityMatches(live, p) <==> SameEntry(live, p)
  {
    hide GoesBy, EffectiveId;
    BlankIsBlank(live.id);
    NameIs(live, EffectiveId(live));
    NameIs(p, EffectiveId(p));
    forall name ensures GoesBy(live, name) <==> EffectiveId(live) == name { NameIs(live, name); }
    forall name ensures GoesBy(p, name) <==> EffectiveId(p) == name { NameIs(p, name); }
  }

  ghost predicate TextFilled(p: string, live: string, r: string) { r == if Blank(p) then live else p }

  /** Every field left empty comes from the live entry, every other stays; file keys are always the live ones. */
  ghost predicate ProviderFilled(p: Provider, live: Provider, r: Provider) {
    && TextFilled(p.apiKey, live.apiKey, r.apiKey) && TextFilled(p.id, live.id, r.id)
    && r.apiKeys == (if p.apiKeys == [] then live.apiKeys else p.apiKeys)
    && r.models == (if p.models == [] then live.models else p.models)
    && r.name == (if p.name == None then live.name else p.name)
    && r.oauthClientSecret == (if p.oauthClientSecret == None then live.oauthClientSecret else p.oauthClientSecret)
    && r.customHeaders == (if p.customHeaders == None then live.customHeaders else p.customHeaders)
    && r.authFileKeys == live.authFileKeys
    && r.providerType == p.providerType && r.baseUrl == p.baseUrl && r.settings == p.settings
  }

  /** From the first live entry that is the same, if there is one. */
  ghost predicate EntryFilled(p: Provider, current: seq<Provider>, r: Provider) {
    if exists j :: 0 <= j < |current| && SameEntry(current[j], p) then
      exists j :: 0 <= j < |current| && SameEntry(current[j], p) && ProviderFilled(p, current[j], r)
        && forall k :: 0 <= k < j ==> !SameEntry(current[k], p)
    else r == p
  }

  ghost predicate McpFilled(m: McpServer, current: seq<McpServer>, r: McpServer) {
    if exists j :: 0 <= j < |current| && current[j].name == m.name then
      exists j :: 0 <= j < |current| && current[j].name == m.name
        && (forall k :: 0 <= k < j ==> current[k].name != m.name)
        && r == m.(env := if m.env == map[] then current[j].env else m.env,
                   headers := if m.headers == map[] then current[j].headers else m.headers)
    else r == m
  }

  ghost predicate GithubFilled(g: Github, live: Github, r: Github) {
    && TextFilled(g.token, live.token, r.token) && TextFilled(g.tokenRefresh, live.tokenRefresh, r.tokenRefresh)
    && TextFilled(g.tokenClientId, live.tokenClientId, r.tokenClientId)
    && r.tokenExpiresAt == (if g.tokenExpiresAt == 0 then live.tokenExpiresAt else g.tokenExpiresAt)
    && r.settings == g.settings
  }

  /**
   The whole of what came in, filled from the live configuration. In the list it is the live entry that needs
   an id to be known by name, for the single provider the incoming one.
  */
  ghost predicate Filled(c: Config, live: Config, d: Config) {
    && TextFilled(c.server.password, live.server.password, d.server.password)
    && TextFilled(c.server.jwtSecret, live.server.jwtSecret, d.server.jwtSecret)
    && d.server.settings == c.server.settings
    && (if SameEntry(c.provider, live.provider) then ProviderFilled(c.provider, live.provider, d.provider)
        else d.provider == c.provider)
    && |d.providers| == |c.providers|
    && (forall i :: 0 <= i < |c.providers| ==> EntryFilled(c.providers[i], live.providers, d.providers[i]))
    && (if c.telegram.Some? && live.telegram.Some? then
          && d.telegram.Some? && d.telegram.value.settings == c.telegram.value.settings
          && TextFilled(c.telegram.value.botToken, live.telegram.value.botToken, d.telegram.value.botToken)
        else d.telegram == c.telegram)
    && (if c.discord.Some? && live.discord.Some? then
          && d.discord.Some? && d.discord.value.settings == c.discord.value.settings
          && TextFilled(c.discord.value.token, live.discord.value.token, d.discord.value.token)
          && TextFilled(c.discord.value.githubToken, live.discord.value.githubToken, d.discord.value.githubToken)
        else d.discord == c.discord)
    && GithubFilled(c.github, live.github, d.github)
    && |d.mcp| == |c.mcp| && (forall i :: 0 <= i < |c.mcp| ==> McpFilled(c.mcp[i], live.mcp, d.mcp[i]))
    && d.settings == c.settings
  }

  lemma TextIsFilled(p: string, live: string)
    ensures TextFilled(p, live, OrElse(p, live))
  {
    BlankIsBlank(p);
  }

  lemma ProviderIsFilled(p: Provider, live: Provider)
    ensures ProviderFilled(p, live, PreserveProvider(p, live))
  {
    hide TextFilled, OrElse;
    TextIsFilled(p.apiKey, live.apiKey);
    TextIsFilled(p.id, live.id);
  }

  lemma EntryIsFilled(p: Provider, current: seq<Provider>)
    ensures EntryFilled(p, current, PreserveEntry(p, current))
  {
    hide SameEntry, ProviderFilled, IdentityMatches;
    forall j | 0 <= j < |current| ensures IdentityMatches(current[j], p) <==> SameEntry(current[j], p) {
      MatchIs(current[j], p);
    }
    var i := FirstMatch(current, p);
    if i < |current| { ProviderIsFilled(p, current[i]); }
  }

  lemma McpIsFilled(m: McpServer, current: seq<McpServer>)
    ensures McpFilled(m, current, PreserveMcp(m, current))
  {
    var i := FirstNamed(current, m.name);
  }

  lemma SectionsFilled(c: Config, live: Config)
    ensures var d := Preserved(c, live);
            && TextFilled(c.server.password, live.server.password, d.server.password)
            && TextFilled(c.server.jwtSecret, live.server.jwtSecret, d.server.jwtSecret)
            && (c.telegram.Some? && live.telegram.Some? ==>
                  TextFilled(c.telegram.value.botToken, live.telegram.value.botToken, d.telegram.value.botToken))
            && (c.discord.Some? && live.discord.Some? ==>
                  && TextFilled(c.discord.value.token, live.discord.value.token, d.discord.value.token)
                  && TextFilled(c.discord.value.githubToken, live.discord.value.githubToken,
                                d.discord.value.githubToken))
            && GithubFilled(c.github, live.github, d.github)
  {
    hide TextFilled, OrElse, PreserveProvider, PreserveEntries, PreserveServers, IdentityMatches;
    TextIsFilled(c.server.password, live.server.password);
    TextIsFilled(c.server.jwtSecret, live.server.jwtSecret);
    if c.telegram.Some? && live.telegram.Some? {
      TextIsFilled(c.telegram.value.botToken, live.telegram.value.botToken);
    }
    if c.discord.Some? && live.discord.Some? {
      TextIsFilled(c.discord.value.token, live.discord.value.token);
      TextIsFilled(c.discord.value.githubToken, live.discord.value.githubToken);
    }
    TextIsFilled(c.github.token, live.github.token);
    TextIsFilled(c.github.tokenRefresh, live.github.tokenRefresh);
    TextIsFilled(c.github.tokenClientId, live.github.tokenClientId);
  }

  lemma EntriesFilled(ps: seq<Provider>, live: seq<Provider>)
    ensures forall i :: 0 <= i < |ps| ==> EntryFilled(ps[i], live, PreserveEntries(ps, live)[i])
  {
    hide EntryFilled, PreserveEntry;
    forall i | 0 <= i < |ps| ensures EntryFilled(ps[i], live, PreserveEntries(ps, live)[i]) {
      EntryIsFilled(ps[i], live);
    }
  }

  lemma ServersFilled(ms: seq<McpServer>, live: seq<McpServer>)
    ensures forall i :: 0 <= i < |ms| ==> McpFilled(ms[i], live, PreserveServers(ms, live)[i])
  {
    hide McpFilled, PreserveMcp;
    forall i | 0 <= i < |ms| ensures McpFilled(ms[i], live, PreserveServers(ms, live)[i]) {
      McpIsFilled(ms[i], live);
    }
  }

  /** Restoring fills in just what came in empty, entry by entry. */
  lemma PreservedFills(c: Config, live: Config)
    ensures Filled(c, live, Preserved(c, live))
  {
    hide TextFilled, OrElse, SameEntry, IdentityMatches, ProviderFilled, PreserveProvider, EntryFilled, PreserveEntry,
      McpFilled, PreserveMcp, GithubFilled, PreserveGithub, PreserveEntries, PreserveServers;
    SectionsFilled(c, live);
    MatchIs(c.provider, live.provider);
    ProviderIsFilled(c.provider, live.provider);
    EntriesFilled(c.providers, live.providers);
    ServersFilled(c.mcp, live.mcp);
  }
}
