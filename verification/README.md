# caddy-watcher, modelled in Dafny

The watcher is a small Go daemon that sits next to a Caddy reverse proxy. It
watches Docker for networks whose name ends in a suffix (`_caddy` by
default). It attaches the proxy container to each such network. It reads the
`CADDY_*` environment variables of the containers on the network and turns
them into routing configs. Allowlist host names are re-resolved over DNS over
HTTPS, and a status snapshot is kept for a small web page.

This project models the decision logic of that daemon as pure Dafny functions
and proves what each step promises:

- `outcomes.dfy`: `Option` and `Result`.
- `strs.dfy` (module `Strs`): the few Go `strings`/`strconv` functions the core
  relies on (`TrimSpace`, `Split`, `LastIndex`, `Atoi`, prefixes and suffixes).
- `sorting.dfy` (module `Sorting`): `sort.Strings` as an insertion sort on
  byte-wise string order.
- `config.dfy` (module `Config`): `config.go`, i.e. the environment-variable
  parser for single- and multi-service containers, domain validation and the
  daemon's own settings.
- `dns.dfy` (module `Dns`): `dns.go`, i.e. DoH resolution with endpoint
  fallback, canonical allowlists, and the allowlist manager's register,
  unregister and refresh.
- `status.dfy` (module `Status`): `status.go`, i.e. the status snapshot, its
  summary counters, and the domain extraction from a written config file.
- `docker.dfy` (module `Docker`): `docker.go`, i.e. network filtering,
  container environment parsing, error tolerance, connect retry, the orphan
  sweep and the event handlers.
- `watcher.dfy` (module `Watcher`): `main.go`, i.e. the allowlist callback's
  key-to-network derivation, per-network config generation, its retry while a
  network is still empty, and the startup pass over existing networks.

Everything the program asks of the outside world is a parameter:
- the Docker daemon's answers (network list, container lists, inspections,
  connect results);
- DNS-over-HTTPS replies and the IP/CIDR parsers;
- context cancellation, a `nat -> bool` saying whether cancellation is seen
  at the n-th pause.

Handlers return an ordered plan of `Docker.Action`s instead of performing
them. `Docker.Run` applies a plan to a store of generated configs keyed by
network, and the lemmas about the store are stated through it. A Go map
iterated with `range` is modelled as a set plus a sequence that enumerates it
(`Config.Enumerates`), and the results are proved independent of the order.
Go panics (slicing a short container ID, `Names[0]` on a container without
names) are modelled as explicit outcomes (`None`, `Crashed`).

## Model

| member | source | states |
|---|---|---|
| Strs.TrimSpace | watcher/config.go:27-28 | the result has no leading or trailing white space and is no longer than the input |
| Strs.TrimSpacePadded | watcher/config.go:27-28 | trimming white space put around a trimmed non-empty string gives that string back |
| Strs.LastIndexOf | watcher/main.go:53 | -1 exactly when the character is absent; otherwise the character sits there and not after it |
| Strs.Split | watcher/status.go:164 | at least one piece, no piece holds the separator, and joining the pieces with it rebuilds the input |
| Strs.SplitJoin | watcher/config.go:27 | splitting a join of separator-free pieces gives the pieces back |
| Strs.Atoi | watcher/config.go:163 | a number is produced exactly for a signed decimal numeral (one or more digits after an optional "+" or "-") whose value lies in the 64-bit range, and it is that value |
| Strs.AtoiSign | watcher/config.go:163 | every in-range run of digits parses to its value; a leading "+" leaves it unchanged and a leading "-" negates it |
| Sorting.Sort | watcher/dns.go:231-233 | the output is sorted, is a permutation of the input, and keeps the input's lack of duplicates |
| Sorting.StrictlySortedUnique | watcher/dns.go:231-233 | two strictly sorted lists with the same members are equal, which is why a sorted allowlist can be compared with `==` |
| Config.SplitCommaSeparated | watcher/config.go:22-34 | empty input gives no items; any other input gives its comma-separated pieces, each trimmed, blank ones dropped, in input order; every item is non-empty, trimmed and comma-free |
| Config.TidyOne | watcher/config.go:27-31 | one piece becomes its trimmed text, or nothing when that is blank |
| Config.TidyAppend | watcher/config.go:26-33 | pieces are handled one at a time in order, so the items of a concatenation are the items of its parts, concatenated |
| Config.SplitCommaSeparatedPieces | watcher/config.go:22-34 | any comma-free pieces joined with "," read back as exactly those pieces trimmed, blanks dropped, in order |
| Config.TidyCommaFree | watcher/config.go:27-31 | trimming and dropping empty pieces never brings a comma into the items |
| Config.SplitCommaSeparatedJoin | watcher/config.go:22-34 | joining non-empty trimmed comma-free items with ", " and splitting again gives the same items |
| Config.IsValidDomain | watcher/config.go:397-427 | an accepted domain has 1 to 253 characters and contains a dot |
| Config.ValidDomainSplit | watcher/config.go:397-427 | an accepted domain splits at dots into at least two labels, each 1-63 letters, digits or inner hyphens, that join back to it |
| Config.ValidDomainJoin | watcher/config.go:397-427 | two or more valid labels joined by dots, at most 253 characters, form an accepted domain |
| Config.DomainListRoundTrip | watcher/config.go:168-176 | a list of valid domains written as a CADDY_DOMAIN value is read back as the same list |
| Config.FirstInvalidDomain | watcher/config.go:169-173 | no result exactly when every domain is valid; otherwise an invalid member of the list |
| Config.Validate | watcher/config.go:139-176 | the checks pass exactly for acceptable values and then yield the split domain list; missing TYPE/PORT keys are named exactly |
| Config.ParseService | watcher/config.go:127-229 | the shared parser: nothing only for an empty domain without a service, an error exactly when the checks fail, the missing keys named exactly, and a routable config whose fields come from the right variables |
| Config.ParseCaddyEnv | watcher/config.go:127-229 | nothing exactly when CADDY_DOMAIN is unset or empty; an error exactly when type, port or domains fail; missing TYPE/PORT named exactly; a config on the given network, with the name stripped of "/", upstream name:port and all flags defaulted as documented |
| Config.ParseCaddyEnvAccepts | watcher/config.go:139-229 | any non-empty list of valid domains with a valid type and a numeric port is accepted and yields exactly those domains |
| Config.AcceptedParses | watcher/config.go:139-229 | acceptable values always parse to a config whose domains are the split CADDY_DOMAIN |
| Config.ParseSingleServiceEnvSpec | watcher/config.go:295-394 | a service fails exactly when its suffixed domain is empty or its values are unacceptable; otherwise the container is name-service and every value comes from the `_<service>` variables |
| Config.ServiceNames | watcher/config.go:256-271 | a name is a service exactly when it is non-empty and CADDY_DOMAIN_<name> is set |
| Config.ConfigKey | watcher/config.go:71-73 | the key is the container name, one "_", then the network name, and both parts can be read back from it |
| Config.ParseSingleServiceEnv | watcher/config.go:295-394 | never yields "no config": an empty or missing CADDY_DOMAIN_<service> is an error, and a success always carries a config |
| Config.ParseMultiServiceEnv | watcher/config.go:274-292 | succeeds exactly when every listed service parses; the configs are exactly those of the listed services; a failure names a listed service |
| Config.ParseEach | watcher/config.go:274-292 | success exactly when every service parses; the configs are exactly the services' configs; a failure names a service that failed |
| Config.EachFailure | watcher/config.go:277-281 | visiting any enumeration of the service names fails exactly when some service fails, and names one that did |
| Config.EachConfigs | watcher/config.go:277-285 | a successful visit of any enumeration yields exactly the services' configs |
| Config.MultiFailure | watcher/config.go:274-292 | whether multi-service parsing fails does not depend on map order: it fails exactly when some service fails |
| Config.MultiConfigs | watcher/config.go:274-292 | the configs of a successful multi-service parse are exactly those of its services, whatever the map order |
| Config.ParseAllCaddyEnv | watcher/config.go:235-253 | without service names it is ParseCaddyEnv as a list of at most one; with them, it is multi-service parsing with the order-independent outcome |
| Config.LoadConfig | watcher/config.go:76-122 | the proxy container is <project or "caddy">-app-1; the suffix is never empty and defaults to "_caddy" when unset or empty; the DNS interval is the variable's value when that is a positive number and 60 otherwise; the hosts directory defaults to "/hosts" and the wildcard DNS provider to "cloudflare"; the editor URL and the wildcard domains come from their variables |
| Config.LoadConfigDefaults | watcher/config.go:76-122 | an empty environment gives proxy "caddy-app-1", suffix "_caddy", "/hosts", 60 seconds, no editor URL, no wildcard domains and "cloudflare" |
| Dns.AddressRecords | watcher/dns.go:98-104 | exactly the data of A and AAAA answers is kept |
| Dns.QueryDoHType | watcher/dns.go:69-109 | fails exactly when the exchange with the endpoint fails; otherwise holds exactly the data of the A and AAAA answers |
| Dns.QueryDoH | watcher/dns.go:55-66 | fails exactly when the A query fails; on success it holds the A answers followed by any AAAA answers |
| Dns.TryEndpoints | watcher/dns.go:37-52 | succeeds exactly when some endpoint answers with addresses, and then with the first such endpoint's answer; a failure reports the last error or "no IPs" |
| Dns.ResolveDoH | watcher/dns.go:37-52 | a success is non-empty; it is Cloudflare's answer when Cloudflare answers, and otherwise Google's answer when Google answers |
| Dns.ResolveEntry | watcher/dns.go:250-269 | an IP or CIDR stands for itself; a host name gives its DoH addresses, or nothing when DoH fails |
| Dns.Collect | watcher/dns.go:218-229 | the collected list has no repeats and holds exactly the addresses of the entries' resolutions |
| Dns.ResolveAllowlist | watcher/dns.go:217-234 | the result is strictly sorted and holds exactly the addresses of the entries |
| Dns.ResolveAllowlistCanonical | watcher/dns.go:217-234 | allowlists with the same entries, in any order or with repeats, resolve to the same list |
| Dns.ResolveWithFallback | watcher/dns.go:237-247 | a non-empty fresh resolution wins; an empty one keeps the previous addresses |
| Dns.EqualStringSlices | watcher/dns.go:272-282 | true exactly when the two lists are equal |
| Dns.FormatAllowlistMatcher | watcher/dns.go:285-290 | no addresses give the empty matcher |
| Dns.FormatAllowlistMatcherSplit | watcher/dns.go:285-290 | splitting a matcher at spaces gives back its space-free addresses |
| Dns.GetResolvedIPs | watcher/dns.go:162-167 | an unknown key gives no addresses (Go's nil slice); `Dns.Register` states what a known key gives |
| Dns.GetEntries | watcher/dns.go:170-178 | an unknown key gives no entries (nil); `Dns.Register` states that a registered key gives its allowlist |
| Dns.Register | watcher/dns.go:136-150 | an empty allowlist changes nothing; otherwise the config itself and its fresh resolution are stored under its key; no other key's config, entries or addresses change; the manager stays well-formed |
| Dns.Unregister | watcher/dns.go:153-159 | the key is gone from both maps; nothing else changes: every other key keeps its presence and its stored config and addresses; the manager stays well-formed |
| Dns.RegisterUnregister | watcher/dns.go:136-159 | unregistering a config just registered restores the manager |
| Dns.RefreshAll | watcher/dns.go:196-214 | the configs stay; the changed keys are exactly those whose re-resolution differs; those get the new addresses, the others keep theirs |
| Dns.RefreshKeeps | watcher/dns.go:237-247 | a refresh never empties a key that had addresses, and keeps the manager well-formed |
| Dns.RefreshSettles | watcher/dns.go:196-214 | with the same DNS answers, a second refresh reports no change |
| Dns.RefreshesKeepAddresses | watcher/dns.go:181-214 | any number of refreshes keep a key that had addresses non-empty |
| Dns.RegisterDropsAddresses | watcher/dns.go:136-150 | registering when nothing resolves stores no addresses, because registration does not fall back to earlier ones |
| Status.Mirror | watcher/status.go:88-114 | the service entry carries every field of the config info, so the info is recovered from it |
| Status.Counts | watcher/status.go:117-134 | total is the number of services; managed plus manual is the total; the per-type counts fit within the total |
| Status.CountsExact | watcher/status.go:117-134 | each counter equals the number of services with that flag or type |
| Status.Update | watcher/status.go:81-144 | one entry per config, in order, mirroring it; the summary counts those entries; the time is the given one; wildcard domains, editor URL and status domain carry over |
| Status.NewStatusManager | watcher/status.go:67-78 | starts with no services and zero counters, holding the given editor URL and status domain |
| Status.SetWildcardDomains | watcher/status.go:147-151 | the wildcard domains are replaced and nothing else changes |
| Status.ExtractDomainsFromContent | watcher/status.go:162-184 | every domain read from a routing file is non-empty; a file without an https:// line yields nothing; otherwise only the first such line is read and gives the domains |
| Status.DomainsFromLines | watcher/status.go:162-184 | every extracted domain is non-empty; with no https:// line nothing is extracted |
| Status.FirstHeaderWins | watcher/status.go:166-180 | only the first https:// line counts; the lines after it are ignored |
| Status.HeaderRoundTrip | watcher/status.go:166-178 | a header written from plain domains is recognised and gives back exactly those domains |
| Status.ExtractHeaderFirst | watcher/status.go:162-184 | content whose first line is such a header yields exactly its domains, whatever follows |
| Docker.WithSuffix | watcher/docker.go:43-49 | a name is kept exactly when it ends in the suffix, and the listing never grows |
| Docker.WithSuffixAppend | watcher/docker.go:43-49 | filtering distributes over concatenation |
| Docker.WithSuffixIdempotent | watcher/docker.go:43-49 | filtering a filtered list changes nothing |
| Docker.ListProxyNetworks | watcher/docker.go:37-50 | a failing listing is reported as is; otherwise exactly the names with the suffix |
| Docker.SplitEntry | watcher/docker.go:131-137 | no pair exactly when the entry has no "="; otherwise the key is "="-free and key=value rebuilds the entry |
| Docker.EntryRoundTrip | watcher/docker.go:131-137 | an entry built from a "="-free key and any value splits back into them |
| Docker.ParseEnv | watcher/docker.go:131-137 | every key in the environment is set by some entry |
| Docker.ParseEnvLast | watcher/docker.go:131-137 | a key's value is the one given by the last entry that sets it |
| Docker.ConnectOutcome | watcher/docker.go:53-64 | an error counts as success exactly when it says "already exists" |
| Docker.DisconnectOutcome | watcher/docker.go:67-78 | an error counts as success exactly when it says "is not connected" |
| Docker.RemoveOutcome | watcher/docker.go:81-92 | an error counts as success exactly when it says "not found" or "has active endpoints" |
| Docker.ConnectWithRetry | watcher/docker.go:95-112 | one to four attempts; all but the last failed; success exactly when the last attempt succeeded; a cancellation is only seen in the first two pauses, and no pause before the last attempt was cancelled; without cancellation a failure means four failed attempts; a reported failure always comes from the fourth attempt and carries its error |
| Docker.RetryFirstSuccess | watcher/docker.go:95-112 | the first successful attempt, with no earlier cancellation, ends the loop with success |
| Docker.SweepNetworks | watcher/docker.go:226-269 | configs are removed and the network deleted exactly for proxy networks whose members could be listed and hold no container but the proxy; the disconnect of the proxy is attempted on exactly those networks, whether or not it is still attached; the plan holds nothing else but status refreshes |
| Docker.HasServiceContainer | watcher/docker.go:233-244 | true exactly when some member has a name other than the proxy's once its leading "/" is stripped |
| Docker.SweepOrder | watcher/docker.go:246-266 | for every orphaned network the plan holds, back to back, the disconnect, the network removal, the config removal and the status refresh, in that order |
| Docker.SweepAppend | watcher/docker.go:225-267 | networks are swept one after another in listing order, so the plan for a listing is the plans for its parts concatenated |
| Docker.CleanupOrphanedNetworks | watcher/docker.go:219-270 | a failing network listing does nothing; otherwise the configs are removed, the network is removed and the proxy disconnect is attempted exactly for the suffixed networks that are orphaned; nothing is regenerated or connected |
| Docker.SweepStore | watcher/docker.go:219-270 | after the sweep exactly the orphaned proxy networks have lost their configs; all other entries are kept |
| Docker.Apply | watcher/main.go:128-181 | removing a network's configs deletes its entry and keeps every other network's files; regenerating keeps the files the network had and adds the newly written ones; other actions leave the files alone |
| Docker.RunPreserves | watcher/docker.go:272-399 | a plan that does not touch a network leaves its configs alone |
| Docker.RunRemoves | watcher/docker.go:306-317 | a plan that removes a network's configs and never regenerates it leaves that network without configs |
| Docker.HandleNetworkEvent | watcher/docker.go:281-366 | events of other networks and disconnects do nothing; a create connects the proxy, then regenerates with retry, then refreshes the status; a destroy removes the configs and refreshes; a connect of a resolvable non-proxy container regenerates and refreshes, any other connect does nothing; a regeneration with retry happens exactly for creates and for connects of a non-proxy container |
| Docker.HandleContainerEvent | watcher/docker.go:368-399 | only the proxy's start does anything: a retried connect to each suffixed network, in listing order |
| Docker.HandleEvent | watcher/docker.go:272-279 | other event types do nothing; an event never deletes a network or disconnects; removals and regenerations concern only the event's own network |
| Docker.EventStore | watcher/docker.go:272-366 | handling an event changes at most the configs of the event's own network |
| Watcher.DeriveNetwork | watcher/main.go:52-55 | with an "_" past the first character the result is the underscore-free text after the last "_"; otherwise the whole key |
| Watcher.DeriveNetworkExact | watcher/main.go:52-55 | the derivation recovers a config's network exactly when the network has no "_" and the container name is non-empty |
| Watcher.DeriveNetworkDefaultSuffix | watcher/main.go:52-55 | under the default suffix every key derives "caddy", which is never the config's network |
| Watcher.NetworkOfKey | watcher/dns.go:117-119 | a network is found exactly for keys the allowlist manager tracks |
| Watcher.NetworkOfRegisteredKey | watcher/dns.go:144-145 | after a config with an allowlist is registered, its key leads back to its own network |
| Watcher.NetworkOfKeyValid | watcher/dns.go:144-145 | every tracked key is the config key of its config and leads to that config's network |
| Watcher.NetworkOfKeyCorrects | watcher/main.go:50-59 | on a default-suffix network the lookup by key regenerates the config's own network, which the derivation misses |
| Watcher.MemberSteps | watcher/main.go:139-178 | the proxy and containers without config give no steps; a member panics exactly when it is not the proxy and either its inspection failed with an ID shorter than twelve characters or it has no names; a member whose environment parses to a config writes exactly that config, registered just before when it has an allowlist and a manager exists; any other member that does not panic takes no step |
| Watcher.GenerateConfigs | watcher/main.go:128-181 | a failing listing is reported as is; an empty network writes nothing; generation finishes exactly when no member panics; every written config was registered first |
| Watcher.GenerateForNetwork | watcher/main.go:128-181 | with the environment parser, every written config belongs to the network, is routable and is never the proxy's |
| Watcher.GeneratedInMemberOrder | watcher/main.go:139-178 | when no member up to the i-th panics, the i-th member's steps follow directly on those of the members before it, and together they begin the pass's steps: containers are written in listing order |
| Watcher.RunMembersSnoc | watcher/main.go:139-178 | after members that all went through, a member that does not panic appends exactly its own steps |
| Watcher.RunMembersPrefix | watcher/main.go:139-178 | the steps of members that all went through begin the steps of any longer list of members |
| Watcher.RunMembersAppend | watcher/main.go:139-178 | generating for two groups of members is generating for each in turn |
| Watcher.SkippedMember | watcher/main.go:145-148 | the proxy container contributes nothing to generation |
| Watcher.GenerateWithRetry | watcher/main.go:188-224 | one to three listings, stopping at the first that has members; three empty listings still generate; giving up means three listings without members and the last listing error; only a pause can be cancelled, so a cancellation follows an error or an empty listing other than the third, and every pause before it passed |
| Watcher.RetryFirstFound | watcher/main.go:188-224 | when no cancellation comes before the first listing with members, the retry loop stops after that listing and hands over to a fresh generation, which lists the containers once more |
| Watcher.RetryUncancelled | watcher/main.go:188-224 | without cancellation the loop gives up exactly when no listing has members and one of them failed |
| Watcher.ProcessExistingNetworks | watcher/main.go:101-126 | for each proxy network, in order, a connect then a regeneration without retry; it stops early exactly when cancellation is seen, and a listing error does nothing |

## Left out

- `caddy.go` is not part of this model: it renders the Caddyfile text, writes, removes and lists config files, and supplies the `ConfigInfo` records that the status update consumes. The `Regenerate` and `RemoveConfigs` actions stand for those calls, and the store in `Docker.Run` stands for the hosts directory.
- `server.go` (the status HTTP server) and `StatusManager.GetJSON` are left out: they serialise data and serve it over HTTP.
- DNS over HTTPS, the Docker SDK, `net.ParseIP` and `net.ParseCIDR` are inputs (`Dns.Resolver`, `Docker.Daemon`, `Watcher.Host`), because they are network I/O or parsers of foreign formats.
- Goroutines, mutexes, tickers, `time.After` sleeps and the event stream's reconnect loop are left out. Each handler is modelled as one atomic step, and cancellation is a per-pause input.
- Log messages and the wording of error messages are left out. Errors are structured values (`Config.ParseError`, `Docker.RetryError`).
- `main()`'s wiring is left out. This covers the manager constructors, `os.Getenv` (passed to `Config.LoadConfig` as a map) and the start of the status server.
- `strings.TrimSpace` is modelled on ASCII white space only, and Go's byte length is modelled as character count.
- Write failures in generation are only logged by the program, so they are not modelled.
- `regenerateConfigForNetwork` is modelled as the `Regenerate` action plus `Watcher.GenerateWithRetry` and `Watcher.GenerateConfigs`. Regeneration writes one file per container and removes none (main.go:139-178), so `Docker.Apply` adds the regenerated file names to the network's entry: a file of a container that has left stays until the network's configs are removed.
- Config.ParseSingleServiceEnv: its own contract only says it never yields "nothing"; its full behaviour is stated by `Config.ParseSingleServiceEnvSpec`.
- Config.IsValidDomain: its own contract states only length and the dot; the label rules are stated by `Config.ValidDomainSplit` and `Config.ValidDomainJoin`.
- Docker.ParseEnv: its own contract states only where keys come from; the last-entry-wins value is stated by `Docker.ParseEnvLast`.
- Docker.HandleEvent: its own contract states which actions can occur; the exact plans are stated by `Docker.HandleNetworkEvent` and `Docker.HandleContainerEvent`.
- Status.DomainsFromLines: its own contract states only non-emptiness; what is extracted is stated by `Status.FirstHeaderWins`, `Status.HeaderRoundTrip` and `Status.ExtractHeaderFirst`.

Behaviour modelled as the code has it:
- Multi-service parsing stops at the first failing service (config.go:278-281).
- Generation parses each container with `ParseCaddyEnv` (main.go:158), so the multi-service variables are not read there.
- `Register` resolves without falling back to earlier addresses (dns.go:144-145).

## Findings

| source | as written | input that shows it | evidently intended | confidence | as-written member | corrected member |
|---|---|---|---|---|---|---|
| watcher/main.go:52-55 | the allowlist callback takes the network as the text after the last "_" of the key container_network | container "web" on network "shop_caddy" gives key "web_shop_caddy", which derives network "caddy" | regenerate the network the config belongs to, "shop_caddy" | high; not executed | Watcher.DeriveNetworkDefaultSuffix | Watcher.NetworkOfKeyCorrects |
