/**
 The token cache of the HTTP token refresh credential (HttpTokenRefreshApi.credentials.ts, computeConfigHash and
 preAuthentication), over whole runs of calls and user edits.
 */
module TokenCache {
  import opened Wrappers
  import opened StableStringify

  /** The fields a token request depends on, in the order computeConfigHash lists them. */
  const KEYS: seq<string> :=
    ["tokenUrl", "method", "contentType", "bodyMode", "bodyParameters", "secretBodyParameters", "jsonBody",
     "tokenPropertyPath", "tokenSource", "tokenHeaderName", "tokenHeaderPrefix", "ignoreSSLIssues"]

  const BLANK: seq<Value> := seq(12, _ => Undefined)

  /** The values of those fields; a field that is not set is undefined. */
  type Config = fields: seq<Value> | |fields| == |KEYS| witness BLANK

  ghost predicate ValidConfig(config: Config) {
    forall i :: 0 <= i < |KEYS| ==> WellFormed(config[i])
  }

  /** The two configurations ask for a token in the same way. */
  ghost predicate Agree(a: Config, b: Config) {
    forall i :: 0 <= i < |KEYS| ==> Same(a[i], b[i])
  }

  function Units(s: string): Text {
    seq(|s|, i requires 0 <= i < |s| => s[i] as int % 0x10000)
  }

  function Relevant(config: Config): Value {
    Obj(seq(|KEYS|, i requires 0 <= i < |KEYS| => Member(Units(KEYS[i]), config[i])))
  }

  lemma KeysDistinct(i: nat, j: nat)
    requires i < j < |KEYS|
    ensures Units(KEYS[i]) != Units(KEYS[j])
  {
    var a, b := Units(KEYS[i]), Units(KEYS[j]);
    assert |a| == |KEYS[i]| && |b| == |KEYS[j]|;
    if |KEYS[i]| == |KEYS[j]| {
      assert KEYS[i][0] != KEYS[j][0] || KEYS[i][5] != KEYS[j][5];
      assert a[0] != b[0] || a[5] != b[5];
    }
  }

  lemma RelevantWellFormed(config: Config)
    requires ValidConfig(config)
    ensures WellFormed(Relevant(config))
  {
    var members := Relevant(config).members;
    forall i, j | 0 <= i < j < |members| ensures members[i].key != members[j].key {
      KeysDistinct(i, j);
    }
  }

  lemma AgreeingFieldsSame(a: Config, b: Config)
    requires Agree(a, b)
    ensures Same(Relevant(a), Relevant(b))
  {
    var ms, ns := Relevant(a).members, Relevant(b).members;
    forall m | m in ms ensures exists n :: n in ns && n.key == m.key && Same(m.value, n.value) {
      var i :| 0 <= i < |ms| && ms[i] == m;
      assert ns[i] in ns;
    }
    forall n | n in ns ensures exists m :: m in ms && m.key == n.key {
      var i :| 0 <= i < |ns| && ns[i] == n;
      assert ms[i] in ms;
    }
  }

  lemma SameFieldsAgree(a: Config, b: Config)
    requires ValidConfig(b) && Same(Relevant(a), Relevant(b))
    ensures Agree(a, b)
  {
    RelevantWellFormed(b);
    var ms, ns := Relevant(a).members, Relevant(b).members;
    forall i | 0 <= i < |KEYS| ensures Same(a[i], b[i]) {
      assert ms[i] in ms;
      var n :| n in ns && n.key == ms[i].key && Same(ms[i].value, n.value);
      SameKeySameMember(ns, n, ns[i]);
    }
  }

  /** Two configurations get the same text exactly when they agree field by field. */
  lemma SameTextWhenAgree(a: Config, b: Config)
    requires ValidConfig(a) && ValidConfig(b)
    ensures Stable(Relevant(a)) == Stable(Relevant(b)) <==> Agree(a, b)
  {
    RelevantWellFormed(a);
    RelevantWellFormed(b);
    StableIsCanonical(Relevant(a), Relevant(b));
    if Agree(a, b) {
      AgreeingFieldsSame(a, b);
    } else if Same(Relevant(a), Relevant(b)) {
      SameFieldsAgree(a, b);
    }
  }

  // ---------- one call ----------

  /** `Number(cacheTtlMinutes ?? 30)`; the digest of a text is itself a text. */
  datatype Ttl = Unset | Minutes(minutes: real) | NotANumber

  type Digest = Text -> Text

  ghost predicate CollisionFree(digest: Digest) {
    forall s, t :: digest(s) == digest(t) ==> s == t
  }

  /** `Math.max(0, ...)`; not a number behaves as zero, since it is only compared with zero. */
  function EffectiveMinutes(ttl: Ttl): real {
    match ttl
    case Unset => 30.0
    case Minutes(m) => if m > 0.0 then m else 0.0
    case NotANumber => 0.0
  }

  datatype Credentials = Credentials(config: Config, ttl: Ttl, accessToken: Text, tokenExpiresAt: real,
                                     configHash: Text)

  function ConfigHash(digest: Digest, config: Config): Text {
    digest(Stable(Relevant(config)))
  }

  /** The cached token may be used again. */
  predicate Reusable(digest: Digest, c: Credentials, now: real) {
    c.accessToken != [] && EffectiveMinutes(c.ttl) > 0.0
    && c.configHash == ConfigHash(digest, c.config) && now < c.tokenExpiresAt
  }

  function ExpiryOf(ttl: Ttl, now: real): real {
    if EffectiveMinutes(ttl) > 0.0 then now + EffectiveMinutes(ttl) * 60.0 * 1000.0 else 0.0
  }

  /** `preAuthentication`; the response is the token found in it, empty when there is none. */
  function PreAuthentication(digest: Digest, c: Credentials, now: real, response: Text): Result<Credentials, ()> {
    if Reusable(digest, c, now) then Ok(c)
    else if response == [] then Err(())
    else Ok(c.(accessToken := response, tokenExpiresAt := ExpiryOf(c.ttl, now),
               configHash := ConfigHash(digest, c.config)))
  }

  /**
   A token fetched at this time under this time-to-live may still be used: for 30 minutes unless it says otherwise.
   */
  predicate StillGood(ttl: Ttl, time: real, now: real) {
    match ttl
    case Unset => now < time + 1800000.0
    case Minutes(m) => m > 0.0 && now < time + m * 60000.0
    case NotANumber => false
  }

  /** A fetched token is returned again exactly as long as it is still good and the configuration agrees. */
  lemma ReusedWhileGood(digest: Digest, c: Credentials, time: real, token: Text, edited: Config, now: real, other: Text)
    requires CollisionFree(digest) && ValidConfig(c.config) && ValidConfig(edited)
    requires c.accessToken == [] && token != [] && 0.0 <= time <= now
    ensures var fetched := PreAuthentication(digest, c, time, token);
      && fetched.Ok? && fetched.value.accessToken == token
      && fetched.value.config == c.config && fetched.value.ttl == c.ttl
      && var again := PreAuthentication(digest, fetched.value.(config := edited), now, other);
         if StillGood(c.ttl, time, now) && Agree(c.config, edited)
         then again == Ok(fetched.value.(config := edited))
         else if other == [] then again.Err?
         else again.Ok? && again.value.accessToken == other
  {
    SameTextWhenAgree(c.config, edited);
  }

  // ---------- the request body ----------

  /** A name and value pair of the form; the name may be missing (empty), and so may the value. */
  datatype Parameter = Parameter(name: Text, value: Option<Text>)

  /** The value a list of parameters gives a name: the last one wins, a missing value counts as empty. */
  function ValueOf(parameters: seq<Parameter>, name: Text): Option<Text> {
    if parameters == [] then None
    else
      var last := parameters[|parameters| - 1];
      if last.name == name then Some(if last.value.Some? then last.value.value else [])
      else ValueOf(parameters[..|parameters| - 1], name)
  }

  /** The last parameter of that name. */
  predicate LastAt(parameters: seq<Parameter>, name: Text, i: nat) {
    && i < |parameters| && parameters[i].name == name
    && forall j :: i < j < |parameters| ==> parameters[j].name != name
  }

  lemma {:induction false} ValueOfLast(parameters: seq<Parameter>, name: Text, i: nat)
    requires LastAt(parameters, name, i)
    ensures ValueOf(parameters, name) == Some(match parameters[i].value case Some(v) => v case None => [])
    decreases |parameters|
  {
    var n := |parameters| - 1;
    if i < n {
      assert parameters[n].name != name;
      ValueOfLast(parameters[..n], name, i);
    }
  }

  lemma {:induction false} NoValueOf(parameters: seq<Parameter>, name: Text)
    requires forall i :: 0 <= i < |parameters| ==> parameters[i].name != name
    ensures ValueOf(parameters, name) == None
    decreases |parameters|
  {
    if parameters != [] { NoValueOf(parameters[..|parameters| - 1], name); }
  }

  /** So the body has exactly the names given, each with the value of the last parameter of that name. */
  lemma BodyHoldsLast(body: map<Text, Text>, parameters: seq<Parameter>, name: Text)
    requires Holds(body, parameters) && name != []
    ensures forall i: nat :: LastAt(parameters, name, i) ==>
      name in body && body[name] == match parameters[i].value case Some(v) => v case None => []
    ensures name in body <==> exists i :: 0 <= i < |parameters| && parameters[i].name == name
    ensures [] !in body
  {
    forall i: nat | LastAt(parameters, name, i)
      ensures name in body && body[name] == match parameters[i].value case Some(v) => v case None => []
    {
      ValueOfLast(parameters, name, i);
    }
    if i :| 0 <= i < |parameters| && parameters[i].name == name {
      var last := LastExists(parameters, name, i);
      ValueOfLast(parameters, name, last);
    } else {
      NoValueOf(parameters, name);
    }
  }

  lemma {:induction false} LastExists(parameters: seq<Parameter>, name: Text, i: nat) returns (last: nat)
    requires i < |parameters| && parameters[i].name == name
    ensures LastAt(parameters, name, last)
    decreases |parameters| - i
  {
    if j :| i < j < |parameters| && parameters[j].name == name {
      last := LastExists(parameters, name, j);
    } else {
      last := i;
    }
  }

  ghost predicate Holds(body: map<Text, Text>, parameters: seq<Parameter>) {
    forall name ::
      (if name in body then Some(body[name]) else None) == if name == [] then None else ValueOf(parameters, name)
  }

  /**
   The key/value body: every named parameter, secrets after and so over the plain ones, the last of a name winning.
   */
  method BodyObject(parameters: seq<Parameter>, secrets: seq<Parameter>) returns (body: map<Text, Text>)
    ensures Holds(body, parameters + secrets)
  {
    body := map[];
    for i := 0 to |parameters|
      invariant Holds(body, parameters[..i])
    {
      var p := parameters[i];
      assert parameters[..i] + [p] == parameters[..i + 1];
      if p.name == [] { continue; }
      body := body[p.name := if p.value.Some? then p.value.value else []];
    }
    assert parameters[..|parameters|] == parameters + secrets[..0];
    for i := 0 to |secrets|
      invariant Holds(body, parameters + secrets[..i])
    {
      var p := secrets[i];
      assert parameters + secrets[..i] + [p] == parameters + secrets[..i + 1];
      if p.name == [] { continue; }
      body := body[p.name := if p.value.Some? then p.value.value else []];
    }
    assert secrets[..|secrets|] == secrets;
  }

  // ---------- runs ----------

  /** A token fetched from the endpoint: when, for which configuration, to be kept for how long. */
  datatype Fetch = Fetch(token: Text, time: real, config: Config, ttl: Ttl)

  /** The stored credential, with the history of the fetches and the one the stored token came from. */
  datatype State = State(credentials: Credentials, clock: real, fetches: seq<Fetch>, stored: Option<Fetch>)

  datatype Event =
    | Edit(config: Config, ttl: Ttl)
    | Authenticate(now: real, response: Text, persisted: bool)

  ghost predicate Possible(s: State, e: Event) {
    match e
    case Edit(config, _) => ValidConfig(config)
    case Authenticate(now, _, _) => s.clock <= now
  }

  function Step(digest: Digest, s: State, e: Event): State {
    match e
    case Edit(config, ttl) => s.(credentials := s.credentials.(config := config, ttl := ttl))
    case Authenticate(now, response, persisted) =>
      match PreAuthentication(digest, s.credentials, now, response)
      case Err(_) => s.(clock := now)
      case Ok(returned) =>
        if Reusable(digest, s.credentials, now) then s.(clock := now)
        else
          var fetch := Fetch(response, now, s.credentials.config, s.credentials.ttl);
          State(if persisted then returned else s.credentials, now, s.fetches + [fetch],
                if persisted then Some(fetch) else s.stored)
  }

  /** The state after the first n events. */
  function After(digest: Digest, initial: State, events: seq<Event>, n: nat): State
    requires n <= |events|
  {
    if n == 0 then initial else Step(digest, After(digest, initial, events, n - 1), events[n - 1])
  }

  ghost predicate Run(digest: Digest, initial: State, events: seq<Event>) {
    && ValidConfig(initial.credentials.config) && initial.credentials.accessToken == []
    && initial.fetches == [] && initial.stored == None
    && forall n :: 0 <= n < |events| ==> Possible(After(digest, initial, events, n), events[n])
  }

  /** The stored token, hash and expiry are those of the fetch it came from. */
  ghost predicate Invariant(digest: Digest, s: State) {
    && ValidConfig(s.credentials.config)
    && (forall f :: f in s.fetches ==> ValidConfig(f.config) && f.time <= s.clock)
    && (s.stored.None? ==> s.credentials.accessToken == [])
    && (s.stored.Some? ==>
          var f := s.stored.value;
          && f in s.fetches && f.token != [] && s.credentials.accessToken == f.token
          && s.credentials.configHash == ConfigHash(digest, f.config)
          && s.credentials.tokenExpiresAt == ExpiryOf(f.ttl, f.time))
  }

  lemma StepKeepsInvariant(digest: Digest, s: State, e: Event)
    requires Invariant(digest, s) && Possible(s, e)
    ensures Invariant(digest, Step(digest, s, e))
  {
  }

  lemma {:induction false} RunKeepsInvariant(digest: Digest, initial: State, events: seq<Event>, n: nat)
    requires Run(digest, initial, events) && n <= |events|
    ensures Invariant(digest, After(digest, initial, events, n))
  {
    if n > 0 {
      RunKeepsInvariant(digest, initial, events, n - 1);
      StepKeepsInvariant(digest, After(digest, initial, events, n - 1), events[n - 1]);
    }
  }

  /** The stored token comes from a fetch for an agreeing configuration that has not expired. */
  ghost predicate Fresh(s: State, now: real) {
    s.stored.Some? && Agree(s.stored.value.config, s.credentials.config)
    && now < s.stored.value.time + EffectiveMinutes(s.stored.value.ttl) * 60.0 * 1000.0
  }

  /** A call reuses the stored token exactly when caching is on and the token is fresh. */
  lemma ReuseExact(digest: Digest, s: State, now: real)
    requires CollisionFree(digest) && Invariant(digest, s) && s.clock <= now && 0.0 <= now
    ensures Reusable(digest, s.credentials, now) <==> EffectiveMinutes(s.credentials.ttl) > 0.0 && Fresh(s, now)
  {
    if s.stored.Some? {
      var f := s.stored.value;
      SameTextWhenAgree(f.config, s.credentials.config);
      assert ValidConfig(f.config) && f.time <= now;
    }
  }

  /**
   Every call of every run: what it returns was fetched by this call, or by an earlier one for an agreeing
   configuration and less than that fetch's time-to-live ago; it fetches exactly when no such stored token may be
   reused, so always when the time-to-live is zero.
   */
  lemma TokensAreFresh(digest: Digest, initial: State, events: seq<Event>, n: nat)
    requires CollisionFree(digest) && Run(digest, initial, events) && n < |events|
    requires events[n].Authenticate? && 0.0 <= events[n].now
    ensures
      var s := After(digest, initial, events, n);
      var c := s.credentials;
      var now := events[n].now;
      var result := PreAuthentication(digest, c, now, events[n].response);
      if EffectiveMinutes(c.ttl) > 0.0 && Fresh(s, now) then
        && After(digest, initial, events, n + 1).fetches == s.fetches
        && result.Ok?
        && (exists f :: f in s.fetches && f.token == result.value.accessToken && Agree(f.config, c.config)
                        && f.time <= now < f.time + EffectiveMinutes(f.ttl) * 60.0 * 1000.0)
      else if events[n].response == [] then result.Err?
      else
        && result.Ok? && result.value.accessToken == events[n].response
        && After(digest, initial, events, n + 1).fetches
           == s.fetches + [Fetch(events[n].response, now, c.config, c.ttl)]
  {
    var s := After(digest, initial, events, n);
    RunKeepsInvariant(digest, initial, events, n);
    assert Possible(s, events[n]);
    ReuseExact(digest, s, events[n].now);
    if EffectiveMinutes(s.credentials.ttl) > 0.0 && Fresh(s, events[n].now) {
      assert s.stored.value in s.fetches;
    }
  }
}
