/** The watcher's side of the container runtime: which networks it cares about,
    how it reads a container's environment, how connection errors are judged,
    and what it does in response to runtime events and the periodic orphan
    sweep. Every call into the runtime is an input (`Daemon`); the handlers
    return the plan of effects they carry out, in order, and `Run` plays a plan
    against the routing-file store, which is keyed by network. */
module Docker {
  import opened Outcomes
  import opened Strs
  import Config

  // ---------------------------------------------------------------------------
  // Network listing

  /** The names that end in `suffix`, in their original order. */
  function WithSuffix(names: seq<string>, suffix: string): (r: seq<string>)
    ensures |r| <= |names|
    ensures forall x :: x in r <==> x in names && HasSuffix(x, suffix)
  {
    if |names| == 0 then []
    else if HasSuffix(names[0], suffix) then [names[0]] + WithSuffix(names[1..], suffix)
    else WithSuffix(names[1..], suffix)
  }

  /** Filtering a concatenation filters each half and keeps them in order. */
  lemma {:induction false} WithSuffixAppend(a: seq<string>, b: seq<string>, suffix: string)
    ensures WithSuffix(a + b, suffix) == WithSuffix(a, suffix) + WithSuffix(b, suffix)
  {
    if |a| > 0 {
      assert (a + b)[1..] == a[1..] + b;
      WithSuffixAppend(a[1..], b, suffix);
    } else {
      assert a + b == b;
    }
  }

  /** A list that already passes the filter comes through whole. */
  lemma {:induction false} WithSuffixKeepsAll(names: seq<string>, suffix: string)
    requires forall i :: 0 <= i < |names| ==> HasSuffix(names[i], suffix)
    ensures WithSuffix(names, suffix) == names
  {
    if |names| > 0 {
      WithSuffixKeepsAll(names[1..], suffix);
      assert [names[0]] + names[1..] == names;
    }
  }

  /** Filtering twice is filtering once. */
  lemma WithSuffixIdempotent(names: seq<string>, suffix: string)
    ensures WithSuffix(WithSuffix(names, suffix), suffix) == WithSuffix(names, suffix)
  {
    var r := WithSuffix(names, suffix);
    forall i | 0 <= i < |r|
      ensures HasSuffix(r[i], suffix)
    {
      assert r[i] in r;
    }
    WithSuffixKeepsAll(r, suffix);
  }

  /** `ListProxyNetworks`: the runtime's network list narrowed to the proxy suffix;
      a listing failure is passed on. */
  function ListProxyNetworks(listing: Result<seq<string>, string>, suffix: string): (r: Result<seq<string>, string>)
    ensures r.Err? <==> listing.Err?
    ensures r.Err? ==> r.error == listing.error
    ensures r.Ok? ==> forall x :: x in r.value <==> x in listing.value && HasSuffix(x, suffix)
  {
    match listing
    case Err(e) => Err(e)
    case Ok(names) => Ok(WithSuffix(names, suffix))
  }

  // ---------------------------------------------------------------------------
  // Container environment

  /** One `KEY=VALUE` entry split at its first `=`; entries without `=` give nothing. */
  function SplitEntry(e: string): (r: Option<(string, string)>)
    ensures r.None? <==> '=' !in e
    ensures r.Some? ==> '=' !in r.value.0 && r.value.0 + "=" + r.value.1 == e
  {
    if '=' in e then
      var i := IndexOf(e, '=');
      assert e == e[..i] + "=" + e[i + 1..];
      Some((e[..i], e[i + 1..]))
    else None
  }

  /** A key without `=` and any value, even one containing `=`, are split apart again. */
  lemma EntryRoundTrip(k: string, v: string)
    requires '=' !in k
    ensures SplitEntry(k + "=" + v) == Some((k, v))
  {
    IndexOfFirst(k, '=', v);
    var e := k + "=" + v;
    assert e == k + ['='] + v;
    assert e[..|k|] == k && e[|k| + 1..] == v;
  }

  /** Entry `e` sets variable `k`. */
  predicate Sets(e: string, k: string) {
    SplitEntry(e).Some? && SplitEntry(e).value.0 == k
  }

  /** `GetContainerEnv`'s parsing: entries are read in order, each one with `=`
      setting its key. */
  function ParseEnv(entries: seq<string>): (env: map<string, string>)
    ensures forall k :: k in env ==> exists i :: 0 <= i < |entries| && Sets(entries[i], k)
  {
    if |entries| == 0 then map[]
    else
      var n := |entries| - 1;
      var before := ParseEnv(entries[..n]);
      assert forall i :: 0 <= i < n ==> entries[..n][i] == entries[i];
      match SplitEntry(entries[n])
      case None => before
      case Some(kv) => before[kv.0 := kv.1]
  }

  /** No entry after position `i` sets `k`. */
  predicate LastFor(entries: seq<string>, i: nat, k: string) {
    forall j :: i < j < |entries| ==> !Sets(entries[j], k)
  }

  /** Every key that some entry sets is defined, with the value of the last entry setting it. */
  lemma {:induction false} ParseEnvLast(entries: seq<string>, i: nat, k: string)
    requires 0 <= i < |entries| && Sets(entries[i], k) && LastFor(entries, i, k)
    ensures k in ParseEnv(entries) && SplitEntry(entries[i]) == Some((k, ParseEnv(entries)[k]))
  {
    var n := |entries| - 1;
    if i < n {
      assert !Sets(entries[n], k);
      var prefix := entries[..n];
      assert prefix[i] == entries[i];
      assert LastFor(prefix, i, k) by {
        forall j | i < j < |prefix|
          ensures !Sets(prefix[j], k)
        {
          assert prefix[j] == entries[j];
        }
      }
      ParseEnvLast(prefix, i, k);
    }
  }

  /** An entry appended last decides its key, whatever came before. */
  lemma ParseEnvLastWins(entries: seq<string>, k: string, v: string)
    requires '=' !in k
    ensures ParseEnv(entries + [k + "=" + v]) == ParseEnv(entries)[k := v]
  {
    EntryRoundTrip(k, v);
    assert (entries + [k + "=" + v])[..|entries|] == entries;
  }

  // ---------------------------------------------------------------------------
  // Error tolerance of network operations

  /** A failed network operation whose message holds one of `phrases` has in
      effect succeeded; any other error passes through unchanged. */
  function Tolerated(err: Option<string>, phrases: seq<string>): (r: Option<string>)
    ensures r.None? <==> err.None? || exists i :: 0 <= i < |phrases| && Contains(err.value, phrases[i])
    ensures r.Some? ==> r == err
  {
    if err.Some? && forall i :: 0 <= i < |phrases| ==> !Contains(err.value, phrases[i]) then err else None
  }

  /** `ConnectToNetwork`: an "already exists" failure means the container is
      connected, so it counts as success. */
  function ConnectOutcome(err: Option<string>): (r: Option<string>)
    ensures r.None? <==> err.None? || Contains(err.value, "already exists")
    ensures r.Some? ==> r == err
  {
    var phrases := ["already exists"];
    assert phrases[0] == "already exists";
    Tolerated(err, phrases)
  }

  /** `DisconnectFromNetwork`: "is not connected" counts as success. */
  function DisconnectOutcome(err: Option<string>): (r: Option<string>)
    ensures r.None? <==> err.None? || Contains(err.value, "is not connected")
    ensures r.Some? ==> r == err
  {
    var phrases := ["is not connected"];
    assert phrases[0] == "is not connected";
    Tolerated(err, phrases)
  }

  /** `RemoveNetwork`: a network already gone or still in use is not an error. */
  function RemoveOutcome(err: Option<string>): (r: Option<string>)
    ensures r.None? <==> err.None? || Contains(err.value, "not found") || Contains(err.value, "has active endpoints")
    ensures r.Some? ==> r == err
  {
    var phrases := ["not found", "has active endpoints"];
    assert phrases[0] == "not found" && phrases[1] == "has active endpoints";
    Tolerated(err, phrases)
  }

  // ---------------------------------------------------------------------------
  // Connecting with retries

  /** Attempts made inside the loop; one more follows it. */
  const MaxRetries: nat := 3

  datatype RetryError = Cancelled | Failed(message: string)

  /** How a retried connect ended: attempts made, and the error if it failed. */
  datatype Retry = Retry(attempts: nat, error: Option<RetryError>)

  /** The retry loop from attempt `i` on. `connect(j)` is the runtime's answer to
      attempt `j`; `cancelled(j)` says the context ended during the pause after
      attempt `j`. There is a pause after every loop attempt but the last. */
  function RetryFrom(connect: nat -> Option<string>, cancelled: nat -> bool, i: nat): (r: Retry)
    requires i <= MaxRetries
    ensures i < r.attempts <= MaxRetries + 1
    ensures forall j :: i <= j < r.attempts - 1 ==> ConnectOutcome(connect(j)).Some?
    ensures forall j :: i <= j < r.attempts - 1 && j < MaxRetries - 1 ==> !cancelled(j)
    ensures r.error.None? <==> ConnectOutcome(connect(r.attempts - 1)).None?
    ensures r.error == Some(Cancelled) ==> r.attempts < MaxRetries && cancelled(r.attempts - 1)
    ensures r.error.Some? && r.error.value.Failed? ==>
              r.attempts == MaxRetries + 1 && ConnectOutcome(connect(MaxRetries)) == Some(r.error.value.message)
    decreases MaxRetries - i
  {
    var outcome := ConnectOutcome(connect(i));
    if i == MaxRetries then
      Retry(i + 1, if outcome.None? then None else Some(Failed(outcome.value)))
    else if outcome.None? then Retry(i + 1, None)
    else if i < MaxRetries - 1 && cancelled(i) then Retry(i + 1, Some(Cancelled))
    else RetryFrom(connect, cancelled, i + 1)
  }

  /** `ConnectToNetworkWithRetry`: at most four attempts, stopping at the first
      success or at a cancellation seen during a pause. */
  function ConnectWithRetry(connect: nat -> Option<string>, cancelled: nat -> bool): (r: Retry)
    ensures 1 <= r.attempts <= 4
    ensures forall j :: 0 <= j < r.attempts - 1 ==> ConnectOutcome(connect(j)).Some?
    ensures r.error.None? <==> ConnectOutcome(connect(r.attempts - 1)).None?
    ensures r.error == Some(Cancelled) ==> r.attempts <= 2 && cancelled(r.attempts - 1)
    ensures (forall j :: 0 <= j < MaxRetries - 1 ==> !cancelled(j)) && r.error.Some? ==>
              r.attempts == 4 && forall j :: 0 <= j < 4 ==> ConnectOutcome(connect(j)).Some?
    ensures forall j :: 0 <= j < r.attempts - 1 && j < MaxRetries - 1 ==> !cancelled(j)
    ensures r.error.Some? && r.error.value.Failed? ==>
              r.attempts == MaxRetries + 1 && ConnectOutcome(connect(MaxRetries)) == Some(r.error.value.message)
  {
    RetryFrom(connect, cancelled, 0)
  }

  /** The first successful attempt ends the loop, provided no cancellation came first. */
  lemma {:induction false} RetryFromFirstSuccess(connect: nat -> Option<string>, cancelled: nat -> bool, i: nat, k: nat)
    requires i <= k <= MaxRetries
    requires ConnectOutcome(connect(k)).None?
    requires forall j :: i <= j < k ==> ConnectOutcome(connect(j)).Some? && (j < MaxRetries - 1 ==> !cancelled(j))
    ensures RetryFrom(connect, cancelled, i) == Retry(k + 1, None)
    decreases k - i
  {
    if i < k {
      RetryFromFirstSuccess(connect, cancelled, i + 1, k);
    }
  }

  lemma RetryFirstSuccess(connect: nat -> Option<string>, cancelled: nat -> bool, k: nat)
    requires k <= MaxRetries
    requires ConnectOutcome(connect(k)).None?
    requires forall j :: 0 <= j < k ==> ConnectOutcome(connect(j)).Some? && (j < MaxRetries - 1 ==> !cancelled(j))
    ensures ConnectWithRetry(connect, cancelled) == Retry(k + 1, None)
  {
    RetryFromFirstSuccess(connect, cancelled, 0, k);
  }

  // ---------------------------------------------------------------------------
  // Effects, the runtime and the routing-file store

  /** What a handler does, in order. */
  datatype Action =
    | Connect(network: string, container: string)            // one connect attempt
    | ConnectRetrying(network: string, container: string)    // `ConnectWithRetry`
    | Disconnect(network: string, container: string)
    | RemoveNetwork(network: string)
    | Regenerate(network: string, retry: bool)               // regenerate the network's routing files, with or without retry
    | RemoveConfigs(network: string)                         // delete the network's routing files
    | RefreshStatus                                          // republish the status page

  /** A container as a network member list shows it: all its names. */
  datatype Container = Container(names: seq<string>)

  /** What the runtime answers: the network list, a container's recorded name by
      ID (`None` when it cannot be inspected), and a network's member containers. */
  datatype Daemon = Daemon(
    networks: Result<seq<string>, string>,
    inspectName: string -> Option<string>,
    members: string -> Result<seq<Container>, string>
  )

  /** `GetContainerName`: the recorded name without its leading `/`. */
  function ContainerName(d: Daemon, id: string): (r: Option<string>)
    ensures r.None? <==> d.inspectName(id).None?
    ensures r.Some? ==> r.value == TrimPrefix(d.inspectName(id).value, "/")
  {
    match d.inspectName(id)
    case None => None
    case Some(name) => Some(TrimPrefix(name, "/"))
  }

  /** The names of the routing files, grouped by the network they belong to. */
  type Store = map<string, set<string>>

  /** The files a network has before an action: none when it has no entry. */
  function FilesOf(store: Store, n: string): set<string> {
    if n in store then store[n] else {}
  }

  /** The effect of one action on the store. Regenerating network `n` writes
      the files `regen(n)`, overwriting those of the same name, and deletes
      nothing. Other actions touch only the runtime. */
  function Apply(store: Store, a: Action, regen: string -> set<string>): (r: Store)
    ensures a.RemoveConfigs? ==> a.network !in r && forall k :: k != a.network ==> FilesOf(r, k) == FilesOf(store, k)
    ensures a.Regenerate? ==> a.network in r && r[a.network] == FilesOf(store, a.network) + regen(a.network)
    ensures !a.RemoveConfigs? && !a.Regenerate? ==> r == store
  {
    match a
    case RemoveConfigs(n) => store - {n}
    case Regenerate(n, _) => store[n := FilesOf(store, n) + regen(n)]
    case _ => store
  }

  function Run(store: Store, plan: seq<Action>, regen: string -> set<string>): Store
    decreases |plan|
  {
    if |plan| == 0 then store else Run(Apply(store, plan[0], regen), plan[1..], regen)
  }

  /** Action `a` writes or deletes the routing files of network `k`. */
  predicate Touches(a: Action, k: string) {
    a == RemoveConfigs(k) || (a.Regenerate? && a.network == k)
  }

  /** A plan that never touches `k` leaves `k`'s routing files alone. */
  lemma {:induction false} RunPreserves(store: Store, plan: seq<Action>, regen: string -> set<string>, k: string)
    requires forall i :: 0 <= i < |plan| ==> !Touches(plan[i], k)
    ensures k in Run(store, plan, regen) <==> k in store
    ensures k in store ==> Run(store, plan, regen)[k] == store[k]
    decreases |plan|
  {
    if |plan| > 0 {
      RunPreserves(Apply(store, plan[0], regen), plan[1..], regen, k);
    }
  }

  /** Once removed, or never there, `k`'s routing files stay gone unless something regenerates. */
  lemma {:induction false} RunRemoves(store: Store, plan: seq<Action>, regen: string -> set<string>, k: string)
    requires RemoveConfigs(k) in plan || k !in store
    requires forall i :: 0 <= i < |plan| ==> !plan[i].Regenerate?
    ensures k !in Run(store, plan, regen)
    decreases |plan|
  {
    if |plan| > 0 {
      var next := Apply(store, plan[0], regen);
      assert k !in next || RemoveConfigs(k) in plan[1..];
      RunRemoves(next, plan[1..], regen, k);
    }
  }

  // ---------------------------------------------------------------------------
  // Orphan sweep

  /** Some member has a name, other than the proxy's, once its `/` is stripped. */
  function HasServiceContainer(cs: seq<Container>, proxy: string): (b: bool)
    ensures b <==> exists i, j :: 0 <= i < |cs| && 0 <= j < |cs[i].names| && TrimPrefix(cs[i].names[j], "/") != proxy
  {
    if |cs| == 0 then false
    else if NamesOtherThan(cs[0].names, proxy) then true
    else
      assert forall i, j :: 1 <= i < |cs| && 0 <= j < |cs[i].names| ==> cs[i].names[j] == cs[1..][i - 1].names[j];
      HasServiceContainer(cs[1..], proxy)
  }

  function NamesOtherThan(names: seq<string>, proxy: string): (b: bool)
    ensures b <==> exists j :: 0 <= j < |names| && TrimPrefix(names[j], "/") != proxy
  {
    if |names| == 0 then false
    else if TrimPrefix(names[0], "/") != proxy then true
    else
      assert forall j :: 1 <= j < |names| ==> names[j] == names[1..][j - 1];
      NamesOtherThan(names[1..], proxy)
  }

  /** A network is orphaned when its member list could be read and holds no
      service container; a network whose members cannot be listed is left alone. */
  predicate Orphaned(members: Result<seq<Container>, string>, proxy: string) {
    members.Ok? && !HasServiceContainer(members.value, proxy)
  }

  /** Cleaning up one orphaned network: disconnect the proxy, remove the
      network, remove its routing files, republish the status. */
  function OrphanSteps(n: string, proxy: string): seq<Action> {
    [Disconnect(n, proxy), RemoveNetwork(n), RemoveConfigs(n), RefreshStatus]
  }

  function SweepNetworks(ns: seq<string>, members: string -> Result<seq<Container>, string>, proxy: string): (plan: seq<Action>)
    ensures forall n :: RemoveConfigs(n) in plan <==> n in ns && Orphaned(members(n), proxy)
    ensures forall n :: RemoveNetwork(n) in plan <==> n in ns && Orphaned(members(n), proxy)
    ensures forall n, c :: Disconnect(n, c) in plan <==> c == proxy && n in ns && Orphaned(members(n), proxy)
    ensures forall i :: 0 <= i < |plan| ==> plan[i].Disconnect? || plan[i].RemoveNetwork? || plan[i].RemoveConfigs? || plan[i] == RefreshStatus
  {
    if |ns| == 0 then []
    else
      var head := if Orphaned(members(ns[0]), proxy) then OrphanSteps(ns[0], proxy) else [];
      var rest := SweepNetworks(ns[1..], members, proxy);
      assert forall n :: n in ns <==> n == ns[0] || n in ns[1..];
      head + rest
  }

  /** `steps` occur contiguously in `plan` from position `i`. */
  predicate StepsAt(plan: seq<Action>, i: int, steps: seq<Action>) {
    0 <= i <= |plan| - |steps| && plan[i..i + |steps|] == steps
  }

  /** Each orphaned network's four steps appear together and in the order
      disconnect, remove the network, remove its routing files, republish. */
  lemma {:induction false} SweepOrder(ns: seq<string>, members: string -> Result<seq<Container>, string>, proxy: string, n: string)
    requires n in ns && Orphaned(members(n), proxy)
    ensures exists i :: StepsAt(SweepNetworks(ns, members, proxy), i, OrphanSteps(n, proxy))
  {
    var head := if Orphaned(members(ns[0]), proxy) then OrphanSteps(ns[0], proxy) else [];
    var rest := SweepNetworks(ns[1..], members, proxy);
    assert SweepNetworks(ns, members, proxy) == head + rest;
    if ns[0] == n {
      StepsAtFront(head, rest);
    } else {
      assert n in ns[1..];
      SweepOrder(ns[1..], members, proxy, n);
      var j :| StepsAt(rest, j, OrphanSteps(n, proxy));
      StepsAtShift(head, rest, j, OrphanSteps(n, proxy));
    }
  }

  lemma StepsAtFront(head: seq<Action>, rest: seq<Action>)
    ensures StepsAt(head + rest, 0, head)
  {
    assert (head + rest)[..|head|] == head;
  }

  lemma StepsAtShift(head: seq<Action>, rest: seq<Action>, j: int, steps: seq<Action>)
    requires StepsAt(rest, j, steps)
    ensures StepsAt(head + rest, |head| + j, steps)
  {
    assert (head + rest)[|head| + j..|head| + j + |steps|] == rest[j..j + |steps|];
  }

  /** Networks are swept one after another in listing order. */
  lemma {:induction false} SweepAppend(a: seq<string>, b: seq<string>, members: string -> Result<seq<Container>, string>, proxy: string)
    ensures SweepNetworks(a + b, members, proxy) == SweepNetworks(a, members, proxy) + SweepNetworks(b, members, proxy)
  {
    if |a| > 0 {
      assert (a + b)[1..] == a[1..] + b;
      SweepAppend(a[1..], b, members, proxy);
    } else {
      assert a + b == b;
    }
  }

  /** `cleanupOrphanedNetworks`: sweeps every proxy network; nothing happens when
      the networks cannot be listed. */
  function CleanupOrphanedNetworks(d: Daemon, suffix: string, proxy: string): (plan: seq<Action>)
    ensures d.networks.Err? ==> plan == []
    ensures forall n :: RemoveConfigs(n) in plan <==>
              d.networks.Ok? && n in d.networks.value && HasSuffix(n, suffix) && Orphaned(d.members(n), proxy)
    ensures forall n :: RemoveNetwork(n) in plan <==>
              d.networks.Ok? && n in d.networks.value && HasSuffix(n, suffix) && Orphaned(d.members(n), proxy)
    ensures forall n, c :: Disconnect(n, c) in plan <==>
              c == proxy && d.networks.Ok? && n in d.networks.value && HasSuffix(n, suffix) && Orphaned(d.members(n), proxy)
    ensures forall i :: 0 <= i < |plan| ==> !plan[i].Regenerate? && !plan[i].Connect? && !plan[i].ConnectRetrying?
  {
    match ListProxyNetworks(d.networks, suffix)
    case Err(_) => []
    case Ok(ns) => SweepNetworks(ns, d.members, proxy)
  }

  /** After a sweep, exactly the orphaned proxy networks have lost their routing
      files; every other network's files are as they were. */
  lemma SweepStore(d: Daemon, suffix: string, proxy: string, store: Store, regen: string -> set<string>, k: string)
    ensures var after := Run(store, CleanupOrphanedNetworks(d, suffix, proxy), regen);
      && (k in after <==> k in store && !(d.networks.Ok? && k in d.networks.value && HasSuffix(k, suffix) && Orphaned(d.members(k), proxy)))
      && (k in after ==> after[k] == store[k])
  {
    var plan := CleanupOrphanedNetworks(d, suffix, proxy);
    if RemoveConfigs(k) in plan {
      RunRemoves(store, plan, regen, k);
    } else {
      forall i | 0 <= i < |plan|
        ensures !Touches(plan[i], k)
      {
        assert plan[i] in plan;
      }
      RunPreserves(store, plan, regen, k);
    }
  }

  // ---------------------------------------------------------------------------
  // Event dispatch

  /** A runtime event: object type, action and the actor's attributes. */
  datatype Event = Event(typ: string, action: string, attributes: map<string, string>)

  /** `handleNetworkEvent`: networks without the suffix are ignored; a new network
      gets the proxy connected and its routing files generated; a destroyed one
      loses its routing files; a container joining (other than the proxy)
      triggers regeneration; a container leaving is only logged. */
  function HandleNetworkEvent(ev: Event, d: Daemon, suffix: string, proxy: string): (plan: seq<Action>)
    ensures !HasSuffix(Config.Get(ev.attributes, "name"), suffix) || ev.action == "disconnect" ==> plan == []
    ensures forall i :: 0 <= i < |plan| ==>
              || plan[i] == Connect(Config.Get(ev.attributes, "name"), proxy)
              || plan[i] == Regenerate(Config.Get(ev.attributes, "name"), true)
              || (plan[i] == RemoveConfigs(Config.Get(ev.attributes, "name")) && ev.action == "destroy")
              || plan[i] == RefreshStatus
    ensures ev.action == "destroy" && HasSuffix(Config.Get(ev.attributes, "name"), suffix) ==>
              plan == [RemoveConfigs(Config.Get(ev.attributes, "name")), RefreshStatus]
    ensures ev.action == "create" && HasSuffix(Config.Get(ev.attributes, "name"), suffix) ==>
              plan == [Connect(Config.Get(ev.attributes, "name"), proxy), Regenerate(Config.Get(ev.attributes, "name"), true), RefreshStatus]
    ensures ev.action == "connect" && HasSuffix(Config.Get(ev.attributes, "name"), suffix) ==>
              plan == match ContainerName(d, Config.Get(ev.attributes, "container"))
                      case Some(who) => if who == proxy then [] else [Regenerate(Config.Get(ev.attributes, "name"), true), RefreshStatus]
                      case None => []
    ensures forall n :: Regenerate(n, true) in plan <==>
              && n == Config.Get(ev.attributes, "name") && HasSuffix(n, suffix)
              && (ev.action == "create" ||
                  (ev.action == "connect" && ContainerName(d, Config.Get(ev.attributes, "container")).Some? &&
                   ContainerName(d, Config.Get(ev.attributes, "container")).value != proxy))
  {
    var name := Config.Get(ev.attributes, "name");
    if !HasSuffix(name, suffix) then []
    else if ev.action == "create" then [Connect(name, proxy), Regenerate(name, true), RefreshStatus]
    else if ev.action == "destroy" then [RemoveConfigs(name), RefreshStatus]
    else if ev.action == "connect" then
      match ContainerName(d, Config.Get(ev.attributes, "container"))
      case None => []
      case Some(who) => if who == proxy then [] else [Regenerate(name, true), RefreshStatus]
    else []
  }

  /** `handleContainerEvent` and `handleContainerStart`: only the proxy's own
      start matters, and it reconnects the proxy to every proxy network. */
  function HandleContainerEvent(ev: Event, d: Daemon, suffix: string, proxy: string): (plan: seq<Action>)
    ensures ev.action != "start" || Config.Get(ev.attributes, "name") != proxy || d.networks.Err? ==> plan == []
    ensures forall i :: 0 <= i < |plan| ==> plan[i].ConnectRetrying? && plan[i].container == proxy
    ensures ev.action == "start" && Config.Get(ev.attributes, "name") == proxy && d.networks.Ok? ==>
              && |plan| == |WithSuffix(d.networks.value, suffix)|
              && forall i :: 0 <= i < |plan| ==> plan[i] == ConnectRetrying(WithSuffix(d.networks.value, suffix)[i], proxy)
  {
    if ev.action != "start" || Config.Get(ev.attributes, "name") != proxy then []
    else
      match ListProxyNetworks(d.networks, suffix)
      case Err(_) => []
      case Ok(ns) => Reconnect(ns, proxy)
  }

  function Reconnect(ns: seq<string>, proxy: string): (plan: seq<Action>)
    ensures |plan| == |ns|
    ensures forall i :: 0 <= i < |ns| ==> plan[i] == ConnectRetrying(ns[i], proxy)
  {
    if |ns| == 0 then [] else [ConnectRetrying(ns[0], proxy)] + Reconnect(ns[1..], proxy)
  }

  /** `handleEvent`: network and container events go to their handlers; any
      other kind of event is ignored.
      Nothing but a network's "destroy" deletes routing files, and it deletes
      only that network's; removing networks and disconnecting the proxy are
      left to the sweep. Only network events regenerate, and only their own
      network. A "disconnect", and every container event other than the
      proxy's start, does nothing. */
  function HandleEvent(ev: Event, d: Daemon, suffix: string, proxy: string): (plan: seq<Action>)
    ensures ev.typ != "network" && ev.typ != "container" ==> plan == []
    ensures forall i :: 0 <= i < |plan| ==>
              && !plan[i].RemoveNetwork? && !plan[i].Disconnect?
              && (plan[i].RemoveConfigs? ==>
                    ev.typ == "network" && ev.action == "destroy" && plan[i].network == Config.Get(ev.attributes, "name"))
    ensures forall i :: 0 <= i < |plan| && plan[i].Regenerate? ==>
              ev.typ == "network" && plan[i] == Regenerate(Config.Get(ev.attributes, "name"), true)
    ensures ((ev.typ == "network" && ev.action == "disconnect") ||
             (ev.typ == "container" && (ev.action != "start" || Config.Get(ev.attributes, "name") != proxy))) ==>
              plan == []
  {
    if ev.typ == "network" then HandleNetworkEvent(ev, d, suffix, proxy)
    else if ev.typ == "container" then HandleContainerEvent(ev, d, suffix, proxy)
    else []
  }

  /** An event changes the routing files of its own network at most. */
  lemma EventStore(ev: Event, d: Daemon, suffix: string, proxy: string, store: Store, regen: string -> set<string>, k: string)
    requires ev.typ != "network" || k != Config.Get(ev.attributes, "name")
    ensures var after := Run(store, HandleEvent(ev, d, suffix, proxy), regen);
      (k in after <==> k in store) && (k in store ==> after[k] == store[k])
  {
    var plan := HandleEvent(ev, d, suffix, proxy);
    if ev.typ == "container" {
      forall i | 0 <= i < |plan|
        ensures !Touches(plan[i], k)
      {
        assert plan[i].ConnectRetrying?;
      }
    }
    RunPreserves(store, plan, regen, k);
  }
}
