/** Hostname allowlists: resolution over DNS-over-HTTPS, the per-config
    store of resolved addresses, and the periodic refresh that keeps the
    last good answer when resolution fails (watcher/dns.go). */
module Dns {
  import opened Outcomes
  import opened Strs
  import opened Sorting
  import opened Config

  /** The two DoH endpoints, asked in this order. */
  const DohEndpoints: seq<string> := ["https://1.1.1.1/dns-query", "https://dns.google/dns-query"]

  /** DNS record types kept from an answer: A and AAAA. */
  const TypeA: int := 1
  const TypeAAAA: int := 28

  /** One record of a DoH JSON answer. */
  datatype Answer = Answer(typ: int, data: string)

  /** What the model cannot see. `isIP` and `isCIDR` stand for the standard
      library's address parsers, and `exchange` for one HTTP round trip to a
      DoH endpoint with its JSON decoding: endpoint, hostname and record type
      in, the answer records or an error message out. */
  datatype Resolver = Resolver(
    isIP: string -> bool,
    isCIDR: string -> bool,
    exchange: (string, string, string) -> Result<seq<Answer>, string>)

  /** Why `resolveDoH` gave no addresses. */
  datatype DohError = Transport(message: string) | NoIPs(hostname: string)

  // ---------------------------------------------------------------------------
  // DNS over HTTPS

  /** The data of the A and AAAA records, in answer order. */
  function AddressRecords(answers: seq<Answer>): (ips: seq<string>)
    ensures |ips| <= |answers|
    ensures forall ip :: ip in ips <==> exists a :: a in answers && (a.typ == TypeA || a.typ == TypeAAAA) && a.data == ip
  {
    if |answers| == 0 then []
    else
      var a := answers[|answers| - 1];
      var init := answers[..|answers| - 1];
      var rest := AddressRecords(init);
      assert answers == init + [a];
      if a.typ == TypeA || a.typ == TypeAAAA then rest + [a.data] else rest
  }

  /** `queryDoHType`: one record type from one endpoint. */
  function QueryDoHType(res: Resolver, endpoint: string, hostname: string, recordType: string)
    : (r: Result<seq<string>, string>)
    ensures r.Err? <==> res.exchange(endpoint, hostname, recordType).Err?
    ensures r.Ok? ==> forall ip :: ip in r.value <==>
      exists a :: a in res.exchange(endpoint, hostname, recordType).value
                  && (a.typ == TypeA || a.typ == TypeAAAA) && a.data == ip
  {
    match res.exchange(endpoint, hostname, recordType)
    case Err(e) => Err(e)
    case Ok(answers) => Ok(AddressRecords(answers))
  }

  /** `queryDoH`: the A answers followed by the AAAA answers. A failed A query
      fails the endpoint; a failed AAAA query only contributes nothing. */
  function QueryDoH(res: Resolver, endpoint: string, hostname: string): (r: Result<seq<string>, string>)
    ensures r.Err? <==> QueryDoHType(res, endpoint, hostname, "A").Err?
    ensures r.Err? ==> r.error == QueryDoHType(res, endpoint, hostname, "A").error
    ensures r.Ok? ==>
      var v4 := QueryDoHType(res, endpoint, hostname, "A").value;
      var v6 := QueryDoHType(res, endpoint, hostname, "AAAA");
      && |v4| <= |r.value| && r.value[..|v4|] == v4
      && (v6.Ok? ==> r.value == v4 + v6.value)
      && (v6.Err? ==> r.value == v4)
  {
    match QueryDoHType(res, endpoint, hostname, "A")
    case Err(e) => Err(e)
    case Ok(v4) =>
      match QueryDoHType(res, endpoint, hostname, "AAAA")
      case Err(_) => Ok(v4)
      case Ok(v6) => Ok(v4 + v6)
  }

  /** An endpoint that answered with at least one address. */
  predicate Answered(res: Resolver, endpoint: string, hostname: string) {
    QueryDoH(res, endpoint, hostname).Ok? && |QueryDoH(res, endpoint, hostname).value| > 0
  }

  /** The endpoint loop of `resolveDoH`: the first endpoint that answers with
      addresses wins; otherwise the error is the last endpoint's, and an
      endpoint that answered without addresses clears any earlier error. */
  function TryEndpoints(res: Resolver, hostname: string, endpoints: seq<string>, lastErr: Option<string>)
    : (r: Result<seq<string>, DohError>)
    ensures r.Ok? <==> exists i :: 0 <= i < |endpoints| && Answered(res, endpoints[i], hostname)
    ensures r.Ok? ==> exists i :: (0 <= i < |endpoints| && Answered(res, endpoints[i], hostname)
                                   && r.value == QueryDoH(res, endpoints[i], hostname).value
                                   && forall j :: 0 <= j < i ==> !Answered(res, endpoints[j], hostname))
    ensures r.Err? && |endpoints| > 0 ==>
      match QueryDoH(res, endpoints[|endpoints| - 1], hostname)
      case Err(e) => r.error == Transport(e)
      case Ok(_) => r.error == NoIPs(hostname)
    ensures r.Err? && |endpoints| == 0 ==>
      r.error == (match lastErr case Some(e) => Transport(e) case None => NoIPs(hostname))
    decreases |endpoints|
  {
    if |endpoints| == 0 then
      match lastErr
      case Some(e) => Err(Transport(e))
      case None => Err(NoIPs(hostname))
    else
      var rest := endpoints[1..];
      assert forall j :: 1 <= j < |endpoints| ==> endpoints[j] == rest[j - 1];
      match QueryDoH(res, endpoints[0], hostname)
      case Ok(ips) =>
        if |ips| > 0 then Ok(ips)
        else
          var r := TryEndpoints(res, hostname, rest, None);
          assert |rest| > 0 ==> endpoints[|endpoints| - 1] == rest[|rest| - 1];
          r
      case Err(e) =>
        var r := TryEndpoints(res, hostname, rest, Some(e));
        assert |rest| > 0 ==> endpoints[|endpoints| - 1] == rest[|rest| - 1];
        r
  }

  /** `resolveDoH`: the endpoints in order. */
  function ResolveDoH(res: Resolver, hostname: string): (r: Result<seq<string>, DohError>)
    ensures r.Ok? ==> |r.value| > 0
    ensures r.Ok? <==> Answered(res, DohEndpoints[0], hostname) || Answered(res, DohEndpoints[1], hostname)
    ensures Answered(res, DohEndpoints[0], hostname) ==> r == Ok(QueryDoH(res, DohEndpoints[0], hostname).value)
    ensures !Answered(res, DohEndpoints[0], hostname) && Answered(res, DohEndpoints[1], hostname) ==>
              r == Ok(QueryDoH(res, DohEndpoints[1], hostname).value)
  {
    TryEndpoints(res, hostname, DohEndpoints, None)
  }

  // ---------------------------------------------------------------------------
  // Resolving allowlists

  /** `resolveEntry`: an address or CIDR stands for itself; a hostname gives
      its DoH addresses, or none when resolution fails. */
  function ResolveEntry(res: Resolver, entry: string): (ips: seq<string>)
    ensures res.isIP(entry) || res.isCIDR(entry) ==> ips == [entry]
    ensures !res.isIP(entry) && !res.isCIDR(entry) ==>
      (|ips| > 0 <==> ResolveDoH(res, entry).Ok?) && (ResolveDoH(res, entry).Ok? ==> ips == ResolveDoH(res, entry).value)
  {
    if res.isIP(entry) || res.isCIDR(entry) then [entry]
    else
      match ResolveDoH(res, entry)
      case Ok(ips) => ips
      case Err(_) => []
  }

  /** Appends the elements of `ips` not already present, keeping first occurrences. */
  function AppendUnseen(acc: seq<string>, ips: seq<string>): (r: seq<string>)
    ensures |acc| <= |r| && r[..|acc|] == acc
    ensures forall x :: x in r <==> x in acc || x in ips
    ensures NoDups(acc) ==> NoDups(r)
    decreases |ips|
  {
    if |ips| == 0 then acc
    else
      var next := if ips[0] in acc then acc else acc + [ips[0]];
      assert NoDups(acc) ==> NoDups(next);
      assert forall x :: x in ips <==> x == ips[0] || x in ips[1..];
      var r := AppendUnseen(next, ips[1..]);
      assert r[..|acc|] == r[..|next|][..|acc|];
      r
  }

  /** The collection loop of `resolveAllowlist` over the entries' resolutions:
      every address, once, in order of first appearance. */
  function Collect(lists: seq<seq<string>>): (r: seq<string>)
    ensures NoDups(r)
    ensures forall ip :: ip in r <==> exists i :: 0 <= i < |lists| && ip in lists[i]
  {
    if |lists| == 0 then []
    else
      var init := lists[..|lists| - 1];
      var c := Collect(init);
      var r := AppendUnseen(c, lists[|lists| - 1]);
      assert forall i :: 0 <= i < |init| ==> init[i] == lists[i];
      r
  }

  /** The addresses of each entry, in entry order. */
  function Resolutions(res: Resolver, entries: seq<string>): (lists: seq<seq<string>>)
    ensures |lists| == |entries|
    ensures forall i :: 0 <= i < |entries| ==> lists[i] == ResolveEntry(res, entries[i])
  {
    seq(|entries|, i requires 0 <= i < |entries| => ResolveEntry(res, entries[i]))
  }

  /** `resolveAllowlist`: the resolved addresses of all entries, without
      repeats, in increasing order. */
  function ResolveAllowlist(res: Resolver, entries: seq<string>): (r: seq<string>)
    ensures StrictlySorted(r)
    ensures forall ip :: ip in r <==> exists i :: 0 <= i < |entries| && ip in ResolveEntry(res, entries[i])
  {
    var lists := Resolutions(res, entries);
    var collected := Collect(lists);
    SortStrict(collected);
    var r := Sort(collected);
    assert forall ip :: ip in r <==> ip in collected by {
      forall ip
        ensures ip in r <==> ip in collected
      {
        assert ip in r <==> ip in multiset(r);
        assert ip in collected <==> ip in multiset(collected);
      }
    }
    r
  }

  /** The result depends only on which addresses the entries resolve to: any
      two allowlists that resolve to the same addresses yield the same list,
      whatever the order or repetition of their entries. */
  lemma ResolveAllowlistCanonical(res: Resolver, entries1: seq<string>, entries2: seq<string>)
    requires forall e :: e in entries1 <==> e in entries2
    ensures ResolveAllowlist(res, entries1) == ResolveAllowlist(res, entries2)
  {
    var r1 := ResolveAllowlist(res, entries1);
    var r2 := ResolveAllowlist(res, entries2);
    forall ip
      ensures ip in r1 <==> ip in r2
    {
      if ip in r1 {
        var i :| 0 <= i < |entries1| && ip in ResolveEntry(res, entries1[i]);
        assert entries1[i] in entries2;
        var j :| 0 <= j < |entries2| && entries2[j] == entries1[i];
      }
      if ip in r2 {
        var j :| 0 <= j < |entries2| && ip in ResolveEntry(res, entries2[j]);
        assert entries2[j] in entries1;
        var i :| 0 <= i < |entries1| && entries1[i] == entries2[j];
      }
    }
    StrictlySortedUnique(r1, r2);
  }

  /** `resolveAllowlistWithFallback`: a fresh empty answer does not replace
      addresses known before. */
  function ResolveWithFallback(res: Resolver, entries: seq<string>, previous: seq<string>): (r: seq<string>)
    ensures |ResolveAllowlist(res, entries)| > 0 ==> r == ResolveAllowlist(res, entries)
    ensures |ResolveAllowlist(res, entries)| == 0 ==> r == previous
    ensures |r| == 0 <==> |ResolveAllowlist(res, entries)| == 0 && |previous| == 0
  {
    var latest := ResolveAllowlist(res, entries);
    if |latest| == 0 && |previous| > 0 then previous else latest
  }

  /** `equalStringSlices`: element-wise comparison. */
  method EqualStringSlices(a: seq<string>, b: seq<string>) returns (eq: bool)
    ensures eq <==> a == b
  {
    if |a| != |b| {
      return false;
    }
    var i := 0;
    while i < |a|
      invariant 0 <= i <= |a|
      invariant a[..i] == b[..i]
    {
      if a[i] != b[i] {
        return false;
      }
      assert a[..i + 1] == a[..i] + [a[i]];
      assert b[..i + 1] == b[..i] + [b[i]];
      i := i + 1;
    }
    assert a == a[..i] && b == b[..i];
    return true;
  }

  /** `FormatAllowlistMatcher`: the addresses separated by single spaces. */
  function FormatAllowlistMatcher(ips: seq<string>): (s: string)
    ensures |ips| == 0 ==> s == ""
  {
    if |ips| == 0 then "" else Join(ips, " ")
  }

  /** Addresses without spaces can be read back from the matcher text. */
  lemma FormatAllowlistMatcherSplit(ips: seq<string>)
    requires |ips| > 0
    requires forall i :: 0 <= i < |ips| ==> ' ' !in ips[i]
    ensures Split(FormatAllowlistMatcher(ips), ' ') == ips
  {
    SplitJoin(ips, ' ');
  }

  // ---------------------------------------------------------------------------
  // The allowlist manager

  /** The manager's two maps, both keyed by config key. */
  datatype Manager = Manager(configs: map<string, CaddyConfig>, resolved: map<string, seq<string>>)

  /** `NewAllowlistManager`: nothing registered. */
  const EmptyManager: Manager := Manager(map[], map[])

  /** What the manager's operations maintain: both maps have the same keys,
      each registered config sits under its own key with a non-empty
      allowlist, and each resolved list is strictly increasing. */
  ghost predicate Valid(m: Manager) {
    && m.configs.Keys == m.resolved.Keys
    && (forall k :: k in m.configs ==> ConfigKey(m.configs[k]) == k && |m.configs[k].allowlist| > 0)
    && (forall k :: k in m.resolved ==> StrictlySorted(m.resolved[k]))
  }

  lemma EmptyManagerValid()
    ensures Valid(EmptyManager)
  {
  }

  /** `GetResolvedIPs`: Go's nil slice for an unknown key. */
  function GetResolvedIPs(m: Manager, key: string): (ips: seq<string>)
    ensures key !in m.resolved ==> ips == []
  {
    if key in m.resolved then m.resolved[key] else []
  }

  /** `GetEntries`: the allowlist as registered, or nil for an unknown key. */
  function GetEntries(m: Manager, key: string): (entries: seq<string>)
    ensures key !in m.configs ==> entries == []
  {
    if key in m.configs then m.configs[key].allowlist else []
  }

  /** `Register`: a config without allowlist is ignored; otherwise it is
      stored under its key and resolved at once, without fallback. */
  function Register(m: Manager, res: Resolver, cfg: CaddyConfig): (r: Manager)
    ensures |cfg.allowlist| == 0 ==> r == m
    ensures |cfg.allowlist| > 0 ==>
      && GetEntries(r, ConfigKey(cfg)) == cfg.allowlist
      && GetResolvedIPs(r, ConfigKey(cfg)) == ResolveAllowlist(res, cfg.allowlist)
    ensures forall k :: k != ConfigKey(cfg) ==>
      GetEntries(r, k) == GetEntries(m, k) && GetResolvedIPs(r, k) == GetResolvedIPs(m, k)
    ensures |cfg.allowlist| > 0 ==> ConfigKey(cfg) in r.configs && r.configs[ConfigKey(cfg)] == cfg
    ensures forall k :: k != ConfigKey(cfg) ==>
      (k in r.configs <==> k in m.configs) && (k in m.configs ==> r.configs[k] == m.configs[k])
    ensures Valid(m) ==> Valid(r)
  {
    if |cfg.allowlist| == 0 then m
    else
      var key := ConfigKey(cfg);
      Manager(m.configs[key := cfg], m.resolved[key := ResolveAllowlist(res, cfg.allowlist)])
  }

  /** `Unregister`: forgets a key in both maps. */
  function Unregister(m: Manager, key: string): (r: Manager)
    ensures key !in r.configs && key !in r.resolved
    ensures GetEntries(r, key) == [] && GetResolvedIPs(r, key) == []
    ensures forall k :: k != key ==> GetEntries(r, k) == GetEntries(m, k) && GetResolvedIPs(r, k) == GetResolvedIPs(m, k)
    ensures forall k :: k != key ==>
      (k in r.configs <==> k in m.configs) && (k in m.configs ==> r.configs[k] == m.configs[k])
    ensures forall k :: k != key ==>
      (k in r.resolved <==> k in m.resolved) && (k in m.resolved ==> r.resolved[k] == m.resolved[k])
    ensures Valid(m) ==> Valid(r)
  {
    Manager(m.configs - {key}, m.resolved - {key})
  }

  /** Registering and then unregistering a config that was not there leaves
      the manager as it was. */
  lemma RegisterUnregister(m: Manager, res: Resolver, cfg: CaddyConfig)
    requires ConfigKey(cfg) !in m.configs && ConfigKey(cfg) !in m.resolved
    ensures Unregister(Register(m, res, cfg), ConfigKey(cfg)) == m
  {
    var key := ConfigKey(cfg);
    if |cfg.allowlist| > 0 {
      AddThenRemove(m.configs, key, cfg);
      AddThenRemove(m.resolved, key, ResolveAllowlist(res, cfg.allowlist));
    } else {
      AddThenRemove(m.configs, key, cfg);
      AddThenRemove(m.resolved, key, []);
    }
  }

  lemma AddThenRemove<V>(m: map<string, V>, key: string, v: V)
    requires key !in m
    ensures m[key := v] - {key} == m
    ensures m - {key} == m
  {
  }

  /** The outcome of `refreshAll`: the new state and the keys whose addresses
      changed, each of which is handed to the change callback. */
  datatype Refresh = Refresh(manager: Manager, changed: set<string>)

  /** The new addresses of one registered key. */
  function Refreshed(m: Manager, res: Resolver, k: string): seq<string>
    requires k in m.configs
  {
    ResolveWithFallback(res, m.configs[k].allowlist, GetResolvedIPs(m, k))
  }

  /** `refreshAll`: re-resolves every registered allowlist with fallback and
      records the keys whose address list changed. */
  function RefreshAll(m: Manager, res: Resolver): (r: Refresh)
    ensures r.manager.configs == m.configs
    ensures forall k :: k in r.changed <==> k in m.configs && Refreshed(m, res, k) != GetResolvedIPs(m, k)
    ensures forall k :: k in m.configs ==> GetResolvedIPs(r.manager, k) == Refreshed(m, res, k)
    ensures forall k :: k !in r.changed ==> GetResolvedIPs(r.manager, k) == GetResolvedIPs(m, k)
  {
    var changed := set k | k in m.configs && Refreshed(m, res, k) != GetResolvedIPs(m, k);
    var resolved := map k | k in m.resolved.Keys + changed ::
      if k in changed then Refreshed(m, res, k) else m.resolved[k];
    var n := Manager(m.configs, resolved);
    assert forall k :: k !in changed ==> GetResolvedIPs(n, k) == GetResolvedIPs(m, k);
    assert forall k :: k in changed ==> GetResolvedIPs(n, k) == Refreshed(m, res, k);
    Refresh(n, changed)
  }

  /** A refresh never takes a key's addresses away, and keeps the manager valid. */
  lemma RefreshKeeps(m: Manager, res: Resolver)
    ensures forall k :: |GetResolvedIPs(m, k)| > 0 ==> |GetResolvedIPs(RefreshAll(m, res).manager, k)| > 0
    ensures Valid(m) ==> Valid(RefreshAll(m, res).manager)
  {
    RefreshKeepsAddresses(m, res);
    if Valid(m) {
      RefreshKeepsValid(m, res);
    }
  }

  lemma RefreshKeepsAddresses(m: Manager, res: Resolver)
    ensures forall k :: |GetResolvedIPs(m, k)| > 0 ==> |GetResolvedIPs(RefreshAll(m, res).manager, k)| > 0
  {
    var r := RefreshAll(m, res).manager;
    forall k | |GetResolvedIPs(m, k)| > 0
      ensures |GetResolvedIPs(r, k)| > 0
    {
      if k in m.configs {
        assert GetResolvedIPs(r, k) == Refreshed(m, res, k);
      }
    }
  }

  lemma RefreshKeepsValid(m: Manager, res: Resolver)
    requires Valid(m)
    ensures Valid(RefreshAll(m, res).manager)
  {
    var r := RefreshAll(m, res).manager;
    assert r.configs.Keys == r.resolved.Keys by {
      forall k | k in r.resolved
        ensures k in r.configs
      {
      }
    }
    forall k | k in r.resolved
      ensures StrictlySorted(r.resolved[k])
    {
      assert GetResolvedIPs(r, k) == r.resolved[k];
      if k in m.configs {
        assert r.resolved[k] == Refreshed(m, res, k);
      }
    }
  }

  /** With the same resolver answers, a second refresh changes nothing:
      refreshing settles after one round. */
  lemma RefreshSettles(m: Manager, res: Resolver)
    ensures RefreshAll(RefreshAll(m, res).manager, res).changed == {}
  {
    var m1 := RefreshAll(m, res).manager;
    forall k | k in m1.configs
      ensures Refreshed(m1, res, k) == GetResolvedIPs(m1, k)
    {
      var latest := ResolveAllowlist(res, m.configs[k].allowlist);
      assert GetResolvedIPs(m1, k) == Refreshed(m, res, k);
    }
  }

  /** Over any run of refreshes, a key that once had addresses keeps having some. */
  lemma {:induction false} RefreshesKeepAddresses(m: Manager, answers: seq<Resolver>, k: string)
    requires |GetResolvedIPs(m, k)| > 0
    ensures |GetResolvedIPs(RefreshMany(m, answers), k)| > 0
    decreases |answers|
  {
    if |answers| > 0 {
      RefreshKeeps(m, answers[0]);
      RefreshesKeepAddresses(RefreshAll(m, answers[0]).manager, answers[1..], k);
    }
  }

  /** The manager after one refresh per resolver state, in order. */
  function RefreshMany(m: Manager, answers: seq<Resolver>): Manager
    decreases |answers|
  {
    if |answers| == 0 then m else RefreshMany(RefreshAll(m, answers[0]).manager, answers[1..])
  }

  /** Registration does not fall back: re-registering a config whose entries
      now all fail to resolve empties its addresses, which the periodic
      refresh would never do. */
  lemma RegisterDropsAddresses(m: Manager, res: Resolver, cfg: CaddyConfig)
    requires |cfg.allowlist| > 0
    requires forall i :: 0 <= i < |cfg.allowlist| ==> ResolveEntry(res, cfg.allowlist[i]) == []
    ensures GetResolvedIPs(Register(m, res, cfg), ConfigKey(cfg)) == []
  {
    var r := ResolveAllowlist(res, cfg.allowlist);
    assert forall ip :: ip !in r;
    NoMembersEmpty(r);
  }

  lemma NoMembersEmpty(s: seq<string>)
    ensures (forall x :: x !in s) ==> s == []
  {
    if |s| > 0 {
      assert s[0] in s;
    }
  }
}
