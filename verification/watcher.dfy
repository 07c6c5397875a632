/** The watcher's top-level loops: turning a changed allowlist key back into a
    network, generating the routing files of one network, retrying that when
    the network is still empty, and the startup pass over existing networks.
    Runtime calls are inputs; the results are the steps taken, in order. */
module Watcher {
  import opened Outcomes
  import opened Strs
  import Config
  import Dns
  import Docker

  // ---------------------------------------------------------------------------
  // Allowlist key to network

  /** The `onChange` callback's derivation: the text after the last `_` when
      that `_` is not the first character, otherwise the whole key. */
  function DeriveNetwork(key: string): (n: string)
    ensures LastIndexOf(key, '_') > 0 ==> '_' !in n && key == key[..LastIndexOf(key, '_')] + "_" + n
    ensures LastIndexOf(key, '_') <= 0 ==> n == key
  {
    var idx := LastIndexOf(key, '_');
    if idx > 0 then
      assert key == key[..idx] + "_" + key[idx + 1..];
      key[idx + 1..]
    else key
  }

  /** The derivation recovers a config's network exactly when the network has
      no `_` and the container name is not empty. */
  lemma DeriveNetworkExact(c: Config.CaddyConfig)
    ensures DeriveNetwork(Config.ConfigKey(c)) == c.network <==> '_' !in c.network && c.container != ""
  {
    var key := Config.ConfigKey(c);
    assert key == c.container + "_" + c.network;
    var idx := LastIndexOf(key, '_');
    if '_' !in c.network {
      assert key[|c.container|] == '_';
      assert key[|c.container| + 1..] == c.network;
      assert idx == |c.container|;
    } else {
      var j := LastIndexOf(c.network, '_');
      assert key[|c.container| + 1 + j] == '_';
      assert key[|c.container| + 1 + j + 1..] == c.network[j + 1..];
      assert idx == |c.container| + 1 + j;
      assert |DeriveNetwork(key)| < |c.network|;
    }
  }

  /** Under the default network suffix every key derives the same network,
      "caddy", which is never a proxy network itself. */
  lemma DeriveNetworkDefaultSuffix(c: Config.CaddyConfig)
    requires HasSuffix(c.network, Config.DefaultNetworkSuffix)
    ensures DeriveNetwork(Config.ConfigKey(c)) == "caddy"
    ensures DeriveNetwork(Config.ConfigKey(c)) != c.network
  {
    var key := Config.ConfigKey(c);
    assert key == c.container + "_" + c.network;
    var p := |key| - 6;
    assert key[p..] == c.network[|c.network| - 6..] == "_caddy";
    assert key[p + 1..] == "caddy";
    LastIndexOfAt(key, '_', p);
  }

  /** The corrected lookup: the allowlist manager already holds the config
      under its key, so the network is read from there. */
  function NetworkOfKey(m: Dns.Manager, key: string): (n: Option<string>)
    ensures n.Some? <==> key in m.configs
  {
    if key in m.configs then Some(m.configs[key].network) else None
  }

  /** After registering a config with an allowlist, its key leads back to its own network. */
  lemma NetworkOfRegisteredKey(m: Dns.Manager, res: Dns.Resolver, c: Config.CaddyConfig)
    requires |c.allowlist| > 0
    ensures NetworkOfKey(Dns.Register(m, res, c), Config.ConfigKey(c)) == Some(c.network)
  {
  }

  /** On a default-suffix network the corrected lookup finds the config's own
      network, where the derivation would have named "caddy". */
  lemma NetworkOfKeyCorrects(m: Dns.Manager, res: Dns.Resolver, c: Config.CaddyConfig)
    requires |c.allowlist| > 0 && HasSuffix(c.network, Config.DefaultNetworkSuffix)
    ensures NetworkOfKey(Dns.Register(m, res, c), Config.ConfigKey(c)) == Some(c.network)
    ensures DeriveNetwork(Config.ConfigKey(c)) != c.network
  {
    DeriveNetworkDefaultSuffix(c);
  }

  /** Any key the manager tracks leads back to the network of the config stored under it. */
  lemma NetworkOfKeyValid(m: Dns.Manager, key: string)
    requires Dns.Valid(m) && key in m.configs
    ensures NetworkOfKey(m, key) == Some(m.configs[key].network)
    ensures Config.ConfigKey(m.configs[key]) == key
  {
  }

  // ---------------------------------------------------------------------------
  // Generating one network's routing files

  /** A network member as the container list reports it. */
  datatype Member = Member(id: string, names: seq<string>)

  /** Turns a container's environment and recorded name into its config. */
  type Parser = (map<string, string>, string) -> Result<Option<Config.CaddyConfig>, Config.ParseError>

  /** What generation can rely on: the proxy's name, each container's
      environment by ID (or the inspection error), whether an allowlist
      manager is present, and the environment parser. */
  datatype Host = Host(proxy: string, envOf: string -> Result<map<string, string>, string>, hasManager: bool, parse: Parser)

  /** A parser whose configs belong to `network`, carry the container's name
      without its `/`, and are routable. */
  ghost predicate SoundParser(parse: Parser, network: string) {
    forall env, name :: parse(env, name).Ok? && parse(env, name).value.Some? ==>
      && parse(env, name).value.value.network == network
      && parse(env, name).value.value.container == TrimPrefix(name, "/")
      && Config.Routable(parse(env, name).value.value)
  }

  /** The parser generation uses, `ParseCaddyEnv` for the network at hand. */
  function NetworkParser(network: string): (parse: Parser) {
    (env, name) => Config.ParseCaddyEnv(env, network, name)
  }

  lemma NetworkParserSound(network: string)
    ensures SoundParser(NetworkParser(network), network)
  {
    forall env, name
      ensures var r := Config.ParseCaddyEnv(env, network, name);
        r.Ok? && r.value.Some? ==>
          r.value.value.network == network && r.value.value.container == TrimPrefix(name, "/") && Config.Routable(r.value.value)
    {
    }
  }

  /** The steps generation takes. A write is attempted either way; its failure
      is only logged. */
  datatype Step = Register(config: Config.CaddyConfig) | Write(config: Config.CaddyConfig)

  /** How one pass ended: the listing failed, a container made the pass stop
      with an index panic (after the steps before it), or it went through. */
  datatype Generation = ListFailed(error: string) | Crashed(done: seq<Step>) | Finished(done: seq<Step>)

  /** The displayed name of a member: its first name without `/`, or "" if it has none. */
  function MemberName(m: Member): string {
    if |m.names| > 0 then TrimPrefix(m.names[0], "/") else ""
  }

  /** The allowlist goes to the manager before the write. */
  predicate Tracked(c: Config.CaddyConfig, hasManager: bool) {
    |c.allowlist| > 0 && hasManager
  }

  /** Each registration is followed by the write of the same config, and each
      write of a tracked config is preceded by its registration. */
  predicate RegisterFirst(steps: seq<Step>, hasManager: bool) {
    && (forall i :: 0 <= i < |steps| && steps[i].Register? ==>
          Tracked(steps[i].config, hasManager) && i + 1 < |steps| && steps[i + 1] == Write(steps[i].config))
    && (forall i :: 0 <= i < |steps| && steps[i].Write? && Tracked(steps[i].config, hasManager) ==>
          i > 0 && steps[i - 1] == Register(steps[i].config))
  }

  /** Every config touched belongs to `network`, is routable, and is not the proxy's. */
  predicate ForNetwork(steps: seq<Step>, network: string, proxy: string) {
    forall i :: 0 <= i < |steps| ==>
      steps[i].config.network == network && steps[i].config.container != proxy && Config.Routable(steps[i].config)
  }

  lemma RegisterFirstAppend(s: seq<Step>, t: seq<Step>, hasManager: bool)
    requires RegisterFirst(s, hasManager) && RegisterFirst(t, hasManager)
    ensures RegisterFirst(s + t, hasManager)
  {
    var u := s + t;
    forall i | 0 <= i < |u| && u[i].Write? && Tracked(u[i].config, hasManager)
      ensures i > 0 && u[i - 1] == Register(u[i].config)
    {
      if i >= |s| {
        assert u[i] == t[i - |s|];
      }
    }
  }

  lemma ForNetworkAppend(s: seq<Step>, t: seq<Step>, network: string, proxy: string)
    requires ForNetwork(s, network, proxy) && ForNetwork(t, network, proxy)
    ensures ForNetwork(s + t, network, proxy)
  {
    forall i | 0 <= i < |s + t|
      ensures (s + t)[i] == if i < |s| then s[i] else t[i - |s|]
    {
    }
  }

  /** The member is not the proxy, its environment was read, and the parser
      turned it into `c`. */
  predicate ParsedConfig(h: Host, m: Member, c: Config.CaddyConfig) {
    MemberName(m) != h.proxy && h.envOf(m.id).Ok? && |m.names| > 0 && h.parse(h.envOf(m.id).value, m.names[0]) == Ok(Some(c))
  }

  /** The steps for one member, or `None` where the code would panic: an
      inspection error on an ID shorter than twelve characters (the log line
      slices it), or a nameless container whose environment was read. */
  function MemberSteps(h: Host, m: Member): (r: Option<seq<Step>>)
    ensures r.None? <==> MemberName(m) != h.proxy &&
                         (if h.envOf(m.id).Err? then |m.id| < 12 else |m.names| == 0)
    ensures r.Some? && r.value != [] ==>
              && MemberName(m) != h.proxy && h.envOf(m.id).Ok? && |m.names| > 0
              && h.parse(h.envOf(m.id).value, m.names[0]).Ok?
              && h.parse(h.envOf(m.id).value, m.names[0]).value.Some?
              && r.value[|r.value| - 1] == Write(h.parse(h.envOf(m.id).value, m.names[0]).value.value)
    ensures r.Some? ==> RegisterFirst(r.value, h.hasManager)
    ensures r.Some? ==> forall i :: 0 <= i < |r.value| ==> r.value[i].config == r.value[|r.value| - 1].config
    ensures forall c :: ParsedConfig(h, m, c) ==>
              r == Some(if Tracked(c, h.hasManager) then [Register(c), Write(c)] else [Write(c)])
    ensures r.Some? && (forall c :: !ParsedConfig(h, m, c)) ==> r.value == []
  {
    if MemberName(m) == h.proxy then Some([])
    else
      match h.envOf(m.id)
      case Err(_) => if |m.id| < 12 then None else Some([])
      case Ok(env) =>
        if |m.names| == 0 then None
        else
          match h.parse(env, m.names[0])
          case Err(_) => Some([])
          case Ok(None) => Some([])
          case Ok(Some(c)) =>
            assert ParsedConfig(h, m, c);
            if Tracked(c, h.hasManager) then Some([Register(c), Write(c)]) else Some([Write(c)])
  }

  /** A sound parser makes every step of a member concern its own, routable, non-proxy config. */
  lemma MemberStepsForNetwork(network: string, h: Host, m: Member)
    requires SoundParser(h.parse, network)
    requires MemberSteps(h, m).Some?
    ensures ForNetwork(MemberSteps(h, m).value, network, h.proxy)
  {
    var r := MemberSteps(h, m).value;
    if r != [] {
      var env := h.envOf(m.id).value;
      assert h.parse(env, m.names[0]).value.value.container == MemberName(m);
    }
  }

  /** The members in order, each contributing its steps; the first panic stops the pass. */
  function RunMembers(h: Host, ms: seq<Member>): (g: Generation)
    ensures !g.ListFailed?
    ensures g.Finished? <==> forall i :: 0 <= i < |ms| ==> MemberSteps(h, ms[i]).Some?
    ensures RegisterFirst(g.done, h.hasManager)
  {
    if |ms| == 0 then Finished([])
    else
      match MemberSteps(h, ms[0])
      case None => Crashed([])
      case Some(s) =>
        var rest := RunMembers(h, ms[1..]);
        RegisterFirstAppend(s, rest.done, h.hasManager);
        assert forall i :: 1 <= i < |ms| ==> ms[i] == ms[1..][i - 1];
        Prepend(s, rest)
  }

  /** Steps taken before a pass: they come first, and the pass ends as it did. */
  function Prepend(s: seq<Step>, g: Generation): (r: Generation)
    requires !g.ListFailed?
    ensures !r.ListFailed? && r.Finished? == g.Finished? && r.done == s + g.done
  {
    if g.Finished? then Finished(s + g.done) else Crashed(s + g.done)
  }

  lemma PrependTwice(s: seq<Step>, t: seq<Step>, g: Generation)
    requires !g.ListFailed?
    ensures Prepend(s, Prepend(t, g)) == Prepend(s + t, g)
  {
    assert s + (t + g.done) == (s + t) + g.done;
  }

  lemma {:induction false} RunMembersForNetwork(network: string, h: Host, ms: seq<Member>)
    requires SoundParser(h.parse, network)
    ensures ForNetwork(RunMembers(h, ms).done, network, h.proxy)
  {
    if |ms| > 0 && MemberSteps(h, ms[0]).Some? {
      MemberStepsForNetwork(network, h, ms[0]);
      RunMembersForNetwork(network, h, ms[1..]);
      ForNetworkAppend(MemberSteps(h, ms[0]).value, RunMembers(h, ms[1..]).done, network, h.proxy);
    }
  }

  /** `generateConfigsForNetwork`: a listing error is returned; an empty
      network writes nothing; otherwise every member is visited in order and a
      member that cannot be inspected or parsed is skipped. Registration of an
      allowlist comes right before the write of its config. */
  function GenerateConfigs(h: Host, listing: Result<seq<Member>, string>): (g: Generation)
    ensures g.ListFailed? <==> listing.Err?
    ensures g.ListFailed? ==> g.error == listing.error
    ensures listing == Ok([]) ==> g == Finished([])
    ensures g.Finished? <==> listing.Ok? && forall i :: 0 <= i < |listing.value| ==> MemberSteps(h, listing.value[i]).Some?
    ensures !g.ListFailed? ==> RegisterFirst(g.done, h.hasManager)
  {
    match listing
    case Err(e) => ListFailed(e)
    case Ok(ms) => if |ms| == 0 then Finished([]) else RunMembers(h, ms)
  }

  /** With `ParseCaddyEnv` as the parser, no config is written for the proxy,
      and every config written belongs to the network and is routable. */
  lemma GenerateForNetwork(network: string, proxy: string, envOf: string -> Result<map<string, string>, string>,
                           hasManager: bool, listing: Result<seq<Member>, string>)
    ensures var g := GenerateConfigs(Host(proxy, envOf, hasManager, NetworkParser(network)), listing);
      !g.ListFailed? ==> ForNetwork(g.done, network, proxy)
  {
    var h := Host(proxy, envOf, hasManager, NetworkParser(network));
    NetworkParserSound(network);
    if listing.Ok? {
      RunMembersForNetwork(network, h, listing.value);
    }
  }

  /** Members are independent: the steps of a list of members are the steps
      of its parts, one after the other. */
  lemma {:induction false} RunMembersAppend(h: Host, a: seq<Member>, b: seq<Member>)
    requires RunMembers(h, a).Finished?
    ensures RunMembers(h, a + b) == Prepend(RunMembers(h, a).done, RunMembers(h, b))
  {
    if |a| > 0 {
      assert (a + b)[1..] == a[1..] + b;
      assert (a + b)[0] == a[0];
      RunMembersAppend(h, a[1..], b);
      PrependTwice(MemberSteps(h, a[0]).value, RunMembers(h, a[1..]).done, RunMembers(h, b));
    } else {
      assert a + b == b;
    }
  }

  /** A member that does not panic adds its steps after those of the members before it. */
  lemma RunMembersSnoc(h: Host, a: seq<Member>, m: Member)
    requires RunMembers(h, a).Finished? && MemberSteps(h, m).Some?
    ensures RunMembers(h, a + [m]).Finished?
    ensures RunMembers(h, a + [m]).done == RunMembers(h, a).done + MemberSteps(h, m).value
  {
    RunMembersAppend(h, a, [m]);
    RunMembersCons(h, m, []);
    assert [m] + [] == [m];
  }

  /** The steps of a pass that went through begin every longer pass. */
  lemma RunMembersPrefix(h: Host, a: seq<Member>, b: seq<Member>)
    requires RunMembers(h, a).Finished?
    ensures RunMembers(h, a).done <= RunMembers(h, a + b).done
  {
    RunMembersAppend(h, a, b);
  }

  /** Members are written in listing order: when no member up to the `i`-th
      panics, the `i`-th member's steps come right after those of the members
      before it, and all of them start the whole pass. */
  lemma GeneratedInMemberOrder(h: Host, ms: seq<Member>, i: nat)
    requires i < |ms|
    requires forall j :: 0 <= j <= i ==> MemberSteps(h, ms[j]).Some?
    ensures RunMembers(h, ms[..i]).Finished? && RunMembers(h, ms[..i + 1]).Finished?
    ensures RunMembers(h, ms[..i + 1]).done == RunMembers(h, ms[..i]).done + MemberSteps(h, ms[i]).value
    ensures RunMembers(h, ms[..i + 1]).done <= GenerateConfigs(h, Ok(ms)).done
  {
    assert forall j :: 0 <= j < i ==> ms[..i][j] == ms[j];
    assert ms[..i + 1] == ms[..i] + [ms[i]];
    RunMembersSnoc(h, ms[..i], ms[i]);
    assert ms == ms[..i + 1] + ms[i + 1..];
    RunMembersPrefix(h, ms[..i + 1], ms[i + 1..]);
  }

  /** One member in front of the rest. */
  lemma RunMembersCons(h: Host, m: Member, ms: seq<Member>)
    ensures RunMembers(h, [m] + ms) ==
              if MemberSteps(h, m).None? then Crashed([]) else Prepend(MemberSteps(h, m).value, RunMembers(h, ms))
  {
    assert ([m] + ms)[0] == m && ([m] + ms)[1..] == ms;
  }

  /** A member that contributes nothing can be dropped without changing the
      outcome: a failure on one container never affects the others. */
  lemma {:induction false} SkippedMember(h: Host, a: seq<Member>, m: Member, b: seq<Member>)
    requires MemberSteps(h, m) == Some([])
    ensures RunMembers(h, a + [m] + b) == RunMembers(h, a + b)
  {
    if |a| == 0 {
      assert a + [m] + b == [m] + b && a + b == b;
      RunMembersCons(h, m, b);
      assert [] + RunMembers(h, b).done == RunMembers(h, b).done;
    } else {
      assert a + [m] + b == [a[0]] + (a[1..] + [m] + b);
      assert a + b == [a[0]] + (a[1..] + b);
      RunMembersCons(h, a[0], a[1..] + [m] + b);
      RunMembersCons(h, a[0], a[1..] + b);
      SkippedMember(h, a[1..], m, b);
    }
  }

  // ---------------------------------------------------------------------------
  // Generation with retry

  /** Listing attempts made before the decision. */
  const MaxListings: nat := 3

  /** What `generateConfigsForNetworkWithRetry` settles on after `listings`
      container listings: run a full generation, give up with the last
      listing error, or stop because the context ended. */
  datatype RetryPlan = Generate(listings: nat) | GiveUp(listings: nat, error: string) | Cancel(listings: nat)

  /** A listing with members in it. */
  predicate Found(l: Result<seq<Member>, string>) {
    l.Ok? && |l.value| > 0
  }

  /** Listing `j` is an error and every later one of the three is not. */
  predicate LastError(listing: nat -> Result<seq<Member>, string>, j: nat, e: string) {
    j < MaxListings && listing(j) == Err(e) && forall k :: j < k < MaxListings ==> listing(k).Ok?
  }

  /** The listing loop from attempt `i`; `lastErr` is the most recent listing
      error. After an error there is always a pause; after an empty listing
      only if another attempt follows. Either pause can end in cancellation. */
  function RetryFrom(listing: nat -> Result<seq<Member>, string>, cancelled: nat -> bool, i: nat, lastErr: Option<string>)
    : (r: RetryPlan)
    requires i <= MaxListings
    ensures i <= r.listings <= MaxListings
    ensures forall j :: i <= j < r.listings - 1 ==> !Found(listing(j))
    ensures r.Generate? ==>
              (i < r.listings && Found(listing(r.listings - 1))) ||
              (r.listings == MaxListings && lastErr.None? && forall j :: i <= j < MaxListings ==> listing(j) == Ok([]))
    ensures r.GiveUp? ==>
              && r.listings == MaxListings
              && (forall j :: i <= j < MaxListings ==> !Found(listing(j)))
              && ((lastErr == Some(r.error) && forall j :: i <= j < MaxListings ==> listing(j).Ok?) ||
                  exists j :: i <= j && LastError(listing, j, r.error))
    ensures r.Cancel? ==> i < r.listings && cancelled(r.listings - 1) && !Found(listing(r.listings - 1))
    ensures r.Cancel? ==> listing(r.listings - 1).Err? || r.listings < MaxListings
    ensures forall j :: i <= j < r.listings - 1 ==> !cancelled(j)
    decreases MaxListings - i
  {
    if i == MaxListings then
      if lastErr.Some? then GiveUp(i, lastErr.value) else Generate(i)
    else
      match listing(i)
      case Err(e) =>
        if cancelled(i) then Cancel(i + 1)
        else
          var r := RetryFrom(listing, cancelled, i + 1, Some(e));
          assert r.GiveUp? && (forall j :: i < j < MaxListings ==> listing(j).Ok?) ==> LastError(listing, i, r.error);
          r
      case Ok(cs) =>
        if |cs| > 0 then Generate(i + 1)
        else if i < MaxListings - 1 && cancelled(i) then Cancel(i + 1)
        else RetryFrom(listing, cancelled, i + 1, lastErr)
  }

  /** `generateConfigsForNetworkWithRetry`'s decision: at most three listings;
      generation at the first non-empty one; after three without one, the
      last listing error if there was any, and a final generation otherwise. */
  function GenerateWithRetry(listing: nat -> Result<seq<Member>, string>, cancelled: nat -> bool): (r: RetryPlan)
    ensures 1 <= r.listings <= MaxListings
    ensures forall j :: 0 <= j < r.listings - 1 ==> !Found(listing(j))
    ensures r.Generate? ==>
              Found(listing(r.listings - 1)) || (r.listings == MaxListings && forall j :: 0 <= j < MaxListings ==> listing(j) == Ok([]))
    ensures r.GiveUp? ==>
              && r.listings == MaxListings
              && (forall j :: 0 <= j < MaxListings ==> !Found(listing(j)))
              && exists j :: LastError(listing, j, r.error)
    ensures r.Cancel? ==> cancelled(r.listings - 1) && !Found(listing(r.listings - 1))
    ensures r.Cancel? ==> listing(r.listings - 1).Err? || r.listings < MaxListings
    ensures forall j :: 0 <= j < r.listings - 1 ==> !cancelled(j)
  {
    RetryFrom(listing, cancelled, 0, None)
  }

  /** Without cancellation, the first non-empty listing triggers generation. */
  lemma {:induction false} RetryFromFirstFound(listing: nat -> Result<seq<Member>, string>, cancelled: nat -> bool,
                                               i: nat, lastErr: Option<string>, k: nat)
    requires i <= k < MaxListings
    requires Found(listing(k))
    requires forall j :: i <= j < k ==> !Found(listing(j)) && !cancelled(j)
    ensures RetryFrom(listing, cancelled, i, lastErr) == Generate(k + 1)
    decreases k - i
  {
    if i < k {
      var next := if listing(i).Err? then Some(listing(i).error) else lastErr;
      RetryFromFirstFound(listing, cancelled, i + 1, next, k);
    }
  }

  lemma RetryFirstFound(listing: nat -> Result<seq<Member>, string>, cancelled: nat -> bool, k: nat)
    requires k < MaxListings
    requires Found(listing(k))
    requires forall j :: 0 <= j < k ==> !Found(listing(j)) && !cancelled(j)
    ensures GenerateWithRetry(listing, cancelled) == Generate(k + 1)
  {
    RetryFromFirstFound(listing, cancelled, 0, None, k);
  }

  /** Without cancellation the loop gives up exactly when none of the three
      listings found members and at least one of them failed. */
  lemma {:induction false} RetryFromUncancelled(listing: nat -> Result<seq<Member>, string>, cancelled: nat -> bool,
                                                i: nat, lastErr: Option<string>)
    requires i <= MaxListings
    requires forall j :: i <= j < MaxListings ==> !cancelled(j)
    ensures !RetryFrom(listing, cancelled, i, lastErr).Cancel?
    ensures RetryFrom(listing, cancelled, i, lastErr).GiveUp? <==>
              (forall j :: i <= j < MaxListings ==> !Found(listing(j))) &&
              (lastErr.Some? || exists j :: i <= j < MaxListings && listing(j).Err?)
    decreases MaxListings - i
  {
    if i < MaxListings {
      var next := if listing(i).Err? then Some(listing(i).error) else lastErr;
      RetryFromUncancelled(listing, cancelled, i + 1, next);
    }
  }

  lemma RetryUncancelled(listing: nat -> Result<seq<Member>, string>, cancelled: nat -> bool)
    requires forall j :: 0 <= j < MaxListings ==> !cancelled(j)
    ensures !GenerateWithRetry(listing, cancelled).Cancel?
    ensures GenerateWithRetry(listing, cancelled).GiveUp? <==>
              (forall j :: 0 <= j < MaxListings ==> !Found(listing(j))) && exists j :: 0 <= j < MaxListings && listing(j).Err?
  {
    RetryFromUncancelled(listing, cancelled, 0, None);
  }

  // ---------------------------------------------------------------------------
  // Startup

  datatype StartupError = ListingFailed(message: string) | Interrupted

  /** `processExistingNetworks`: for each proxy network in order, check for
      cancellation, then connect the proxy and generate its routing files
      (without retry). `cancelled(i)` is whether the context has ended when
      network `i` is reached. */
  method ProcessExistingNetworks(networks: Result<seq<string>, string>, suffix: string, proxy: string, cancelled: nat -> bool)
    returns (steps: seq<Docker.Action>, err: Option<StartupError>)
    ensures networks.Err? ==> steps == [] && err == Some(ListingFailed(networks.error))
    ensures networks.Ok? ==>
      var ns := Docker.WithSuffix(networks.value, suffix);
      && |steps| % 2 == 0 && |steps| / 2 <= |ns|
      && (forall j :: 0 <= j < |steps| / 2 ==>
            && steps[2 * j] == Docker.Connect(ns[j], proxy)
            && steps[2 * j + 1] == Docker.Regenerate(ns[j], false)
            && !cancelled(j))
      && (err == Some(Interrupted) <==> |steps| / 2 < |ns|)
      && (err.Some? ==> err == Some(Interrupted) && cancelled(|steps| / 2))
      && (err.None? <==> forall j :: 0 <= j < |ns| ==> !cancelled(j))
  {
    match Docker.ListProxyNetworks(networks, suffix)
    case Err(e) =>
      steps, err := [], Some(ListingFailed(e));
    case Ok(ns) =>
      steps, err := [], None;
      var i := 0;
      while i < |ns|
        invariant 0 <= i <= |ns| && |steps| == 2 * i
        invariant forall j :: 0 <= j < i ==>
                    steps[2 * j] == Docker.Connect(ns[j], proxy) && steps[2 * j + 1] == Docker.Regenerate(ns[j], false) && !cancelled(j)
      {
        if cancelled(i) {
          err := Some(Interrupted);
          return;
        }
        steps := steps + [Docker.Connect(ns[i], proxy), Docker.Regenerate(ns[i], false)];
        i := i + 1;
      }
  }
}
