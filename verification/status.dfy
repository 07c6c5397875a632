/** The status page's in-memory view: one record per routing file, summary
    counters over them, and the domain list read from a file's first site
    header. The record type of a routing file (`ConfigInfo`) belongs to the
    config writer, which is not part of this model; it is declared here with
    exactly the fields the status view reads. */
module Status {
  import opened Strs
  import Config

  /** What the status view learns about one routing file. */
  datatype ConfigInfo = ConfigInfo(
    network: string,
    container: string,
    typ: string,
    domains: seq<string>,
    allowlist: seq<string>,
    trustedProxies: seq<string>,
    logging: bool,
    dnsProvider: string,
    compression: bool,
    header: bool,
    auth: bool,
    authPaths: seq<string>,
    authExcept: seq<string>,
    authGroups: seq<string>,
    authURL: string,
    seo: bool,
    seoNoindexTypes: seq<string>,
    wwwRedirect: bool,
    performance: bool,
    security: bool,
    wordPress: bool,
    managed: bool,
    path: string
  )

  /** One service as the status page shows it. */
  datatype ServiceStatus = ServiceStatus(
    network: string,
    container: string,
    typ: string,
    domains: seq<string>,
    allowlist: seq<string>,
    trustedProxies: seq<string>,
    logging: bool,
    dnsProvider: string,
    compression: bool,
    header: bool,
    auth: bool,
    authPaths: seq<string>,
    authExcept: seq<string>,
    authGroups: seq<string>,
    authURL: string,
    seo: bool,
    seoNoindexTypes: seq<string>,
    wwwRedirect: bool,
    performance: bool,
    security: bool,
    wordPress: bool,
    managed: bool,
    configPath: string
  )

  datatype Summary = Summary(total: int, managed: int, manual: int, external: int, internal: int, cloudflare: int)

  /** A published snapshot; `updated` is the time stamp the caller supplies. */
  datatype Snapshot = Snapshot(
    services: seq<ServiceStatus>,
    wildcardDomains: seq<string>,
    summary: Summary,
    updated: string,
    codeEditorURL: string,
    statusDomain: string
  )

  datatype StatusManager = StatusManager(
    current: Snapshot,
    codeEditorURL: string,
    statusDomain: string,
    wildcardDomains: seq<string>
  )

  const NoCounts: Summary := Summary(0, 0, 0, 0, 0, 0)

  /** Reads a routing file's record back out of its status entry. */
  function SourceOf(s: ServiceStatus): ConfigInfo {
    ConfigInfo(s.network, s.container, s.typ, s.domains, s.allowlist, s.trustedProxies,
               s.logging, s.dnsProvider, s.compression, s.header, s.auth, s.authPaths,
               s.authExcept, s.authGroups, s.authURL, s.seo, s.seoNoindexTypes,
               s.wwwRedirect, s.performance, s.security, s.wordPress, s.managed, s.configPath)
  }

  /** The status entry of one routing file: every field copied, the path as `configPath`. */
  function Mirror(c: ConfigInfo): (s: ServiceStatus)
    ensures SourceOf(s) == c
  {
    ServiceStatus(c.network, c.container, c.typ, c.domains, c.allowlist, c.trustedProxies,
                  c.logging, c.dnsProvider, c.compression, c.header, c.auth, c.authPaths,
                  c.authExcept, c.authGroups, c.authURL, c.seo, c.seoNoindexTypes,
                  c.wwwRedirect, c.performance, c.security, c.wordPress, c.managed, c.path)
  }

  /** A fresh manager: no services, no wildcard domains, all counters zero. */
  function NewStatusManager(codeEditorURL: string, statusDomain: string, now: string): (m: StatusManager)
    ensures m.current.services == [] && m.wildcardDomains == []
    ensures m.current.summary == Counts(m.current.services)
    ensures m.current.codeEditorURL == m.codeEditorURL == codeEditorURL
    ensures m.current.statusDomain == m.statusDomain == statusDomain
  {
    StatusManager(Snapshot([], [], NoCounts, now, codeEditorURL, statusDomain), codeEditorURL, statusDomain, [])
  }

  // ---------------------------------------------------------------------------
  // Summary counters

  /** One step of the counting loop: managed or manual, then the type bucket if any. */
  function Tally(sum: Summary, s: ServiceStatus): Summary {
    var sum := if s.managed then sum.(managed := sum.managed + 1) else sum.(manual := sum.manual + 1);
    if s.typ == Config.TypeExternal then sum.(external := sum.external + 1)
    else if s.typ == Config.TypeInternal then sum.(internal := sum.internal + 1)
    else if s.typ == Config.TypeCloudflare then sum.(cloudflare := sum.cloudflare + 1)
    else sum
  }

  /** The counters of a service list: every service is managed or manual, and
      at most one type bucket counts it. */
  function Counts(s: seq<ServiceStatus>): (sum: Summary)
    ensures sum.total == |s| && sum.managed + sum.manual == sum.total
    ensures 0 <= sum.external && 0 <= sum.internal && 0 <= sum.cloudflare
    ensures sum.external + sum.internal + sum.cloudflare <= sum.total
  {
    if |s| == 0 then NoCounts
    else Tally(Counts(s[..|s| - 1]), s[|s| - 1]).(total := |s|)
  }

  /** Positions of the managed services. */
  function ManagedAt(s: seq<ServiceStatus>): set<int> {
    set i | 0 <= i < |s| && s[i].managed
  }

  /** Positions of the services of type `t`. */
  function TypedAt(s: seq<ServiceStatus>, t: string): set<int> {
    set i | 0 <= i < |s| && s[i].typ == t
  }

  lemma ManagedAtSnoc(s: seq<ServiceStatus>)
    requires |s| > 0
    ensures |ManagedAt(s)| == |ManagedAt(s[..|s| - 1])| + (if s[|s| - 1].managed then 1 else 0)
  {
    var n := |s| - 1;
    var a := ManagedAt(s[..n]);
    assert n !in a;
    if s[n].managed {
      assert ManagedAt(s) == a + {n};
    } else {
      assert ManagedAt(s) == a;
    }
  }

  lemma TypedAtSnoc(s: seq<ServiceStatus>, t: string)
    requires |s| > 0
    ensures |TypedAt(s, t)| == |TypedAt(s[..|s| - 1], t)| + (if s[|s| - 1].typ == t then 1 else 0)
  {
    var n := |s| - 1;
    var a := TypedAt(s[..n], t);
    var b := TypedAt(s, t);
    assert n !in a;
    forall x | x in a
      ensures x in b
    {
      assert s[..n][x] == s[x];
    }
    forall x | x in b && x != n
      ensures x in a
    {
      assert s[..n][x] == s[x];
    }
    if s[n].typ == t {
      assert b == a + {n};
    } else {
      assert b == a;
    }
  }

  /** Each counter counts exactly the services it names; the manual ones are the rest. */
  lemma {:induction false} CountsExact(s: seq<ServiceStatus>)
    ensures Counts(s).managed == |ManagedAt(s)|
    ensures Counts(s).manual == |s| - |ManagedAt(s)|
    ensures Counts(s).external == |TypedAt(s, Config.TypeExternal)|
    ensures Counts(s).internal == |TypedAt(s, Config.TypeInternal)|
    ensures Counts(s).cloudflare == |TypedAt(s, Config.TypeCloudflare)|
  {
    if |s| > 0 {
      CountsExact(s[..|s| - 1]);
      ManagedAtSnoc(s);
      TypedAtSnoc(s, Config.TypeExternal);
      TypedAtSnoc(s, Config.TypeInternal);
      TypedAtSnoc(s, Config.TypeCloudflare);
    }
  }

  // ---------------------------------------------------------------------------
  // Update and SetWildcardDomains

  /** One turn of the counting loop extends the count by one service; the total is left alone. */
  lemma CountsStep(s: seq<ServiceStatus>, j: nat, n: int)
    requires j < |s|
    ensures Tally(Counts(s[..j]).(total := n), s[j]) == Counts(s[..j + 1]).(total := n)
  {
    assert s[..j + 1][..j] == s[..j];
  }

  /** Rebuilds the snapshot from the routing files: one entry per file in
      order, fresh counters, and the manager's stored settings. */
  method Update(m: StatusManager, configs: seq<ConfigInfo>, now: string) returns (r: StatusManager)
    ensures |r.current.services| == |configs|
    ensures forall i :: 0 <= i < |configs| ==> SourceOf(r.current.services[i]) == configs[i]
    ensures r.current.summary == Counts(r.current.services)
    ensures r.current.summary.total == |configs|
    ensures r.current.wildcardDomains == m.wildcardDomains
    ensures r.current.codeEditorURL == m.codeEditorURL && r.current.statusDomain == m.statusDomain
    ensures r.current.updated == now
    ensures r.codeEditorURL == m.codeEditorURL && r.statusDomain == m.statusDomain
    ensures r.wildcardDomains == m.wildcardDomains
  {
    var services: seq<ServiceStatus> := [];
    var i := 0;
    while i < |configs|
      invariant 0 <= i <= |configs| && |services| == i
      invariant forall k :: 0 <= k < i ==> SourceOf(services[k]) == configs[k]
    {
      services := services + [Mirror(configs[i])];
      i := i + 1;
    }
    var summary := NoCounts.(total := |services|);
    var j := 0;
    while j < |services|
      invariant 0 <= j <= |services|
      invariant summary == Counts(services[..j]).(total := |services|)
    {
      CountsStep(services, j, |services|);
      summary := Tally(summary, services[j]);
      j := j + 1;
    }
    assert services[..j] == services;
    r := m.(current := Snapshot(services, m.wildcardDomains, summary, now, m.codeEditorURL, m.statusDomain));
  }

  /** Stores the wildcard domains for the next `Update`; the published snapshot
      and the other settings stay as they are until then. */
  function SetWildcardDomains(m: StatusManager, domains: seq<string>): (r: StatusManager)
    ensures r.wildcardDomains == domains
    ensures r.current == m.current
    ensures r.codeEditorURL == m.codeEditorURL && r.statusDomain == m.statusDomain
  {
    m.(wildcardDomains := domains)
  }

  // ---------------------------------------------------------------------------
  // Domains of a routing file's site header

  const Scheme: string := "https://"

  /** A line that opens a site block, once surrounding white space is gone. */
  predicate IsHeader(line: string) {
    HasPrefix(TrimSpace(line), Scheme)
  }

  /** One piece of a header, trimmed and stripped of one leading scheme. */
  function Bare(part: string): string {
    TrimPrefix(TrimSpace(part), Scheme)
  }

  /** The comma-separated pieces of a header: each trimmed and stripped of one
      leading scheme, empty ones dropped. */
  function KeepDomains(parts: seq<string>): (ds: seq<string>)
    ensures |ds| <= |parts|
    ensures forall i :: 0 <= i < |ds| ==> ds[i] != ""
  {
    if |parts| == 0 then []
    else
      var d := Bare(parts[0]);
      if d != "" then [d] + KeepDomains(parts[1..]) else KeepDomains(parts[1..])
  }

  /** The domains of one (already trimmed) header line: a trailing `{` and the
      white space before it go, then the rest is read as a comma list. */
  function HeaderDomains(line: string): (ds: seq<string>)
    ensures forall i :: 0 <= i < |ds| ==> ds[i] != ""
  {
    KeepDomains(Split(TrimSpace(TrimSuffix(line, "{")), ','))
  }

  /** Scans lines for the first header and reads only that one. */
  function DomainsFromLines(lines: seq<string>): (ds: seq<string>)
    ensures forall i :: 0 <= i < |ds| ==> ds[i] != ""
    ensures (forall i :: 0 <= i < |lines| ==> !IsHeader(lines[i])) ==> ds == []
  {
    if |lines| == 0 then []
    else if IsHeader(lines[0]) then HeaderDomains(TrimSpace(lines[0]))
    else DomainsFromLines(lines[1..])
  }

  /** Line `k` is a header and no line before it is. */
  predicate FirstHeaderAt(lines: seq<string>, k: int) {
    0 <= k < |lines| && IsHeader(lines[k]) && forall j :: 0 <= j < k ==> !IsHeader(lines[j])
  }

  /** The domains a routing file serves, read from its first site header. */
  function ExtractDomainsFromContent(content: string): (ds: seq<string>)
    ensures forall i :: 0 <= i < |ds| ==> ds[i] != ""
    ensures (forall i :: 0 <= i < |Split(content, '\n')| ==> !IsHeader(Split(content, '\n')[i])) ==> ds == []
    ensures forall k :: FirstHeaderAt(Split(content, '\n'), k) ==> ds == HeaderDomains(TrimSpace(Split(content, '\n')[k]))
  {
    var lines := Split(content, '\n');
    assert forall k :: FirstHeaderAt(lines, k) ==> DomainsFromLines(lines) == HeaderDomains(TrimSpace(lines[k])) by {
      forall k | FirstHeaderAt(lines, k)
        ensures DomainsFromLines(lines) == HeaderDomains(TrimSpace(lines[k]))
      {
        FirstHeaderWins(lines, k);
      }
    }
    DomainsFromLines(lines)
  }

  /** Only the first header counts: lines before it are skipped and lines after it are never read. */
  lemma {:induction false} FirstHeaderWins(lines: seq<string>, k: int)
    requires 0 <= k < |lines| && IsHeader(lines[k])
    requires forall j :: 0 <= j < k ==> !IsHeader(lines[j])
    ensures DomainsFromLines(lines) == HeaderDomains(TrimSpace(lines[k]))
  {
    if k > 0 {
      FirstHeaderWins(lines[1..], k - 1);
    }
  }

  /** A domain that can be written into a header and read back unchanged. */
  predicate PlainDomain(d: string) {
    d != "" && forall k :: 0 <= k < |d| ==> !IsSpace(d[k]) && d[k] != ','
  }

  /** Each domain with the scheme in front. */
  function Prefixed(ds: seq<string>): (us: seq<string>)
    ensures |us| == |ds|
    ensures forall i :: 0 <= i < |ds| ==> us[i] == Scheme + ds[i]
  {
    if |ds| == 0 then [] else [Scheme + ds[0]] + Prefixed(ds[1..])
  }

  /** The header a routing file opens with when it serves `ds`. */
  function HeaderLine(ds: seq<string>): string {
    Join(Prefixed(ds), ", ") + " {"
  }

  /** Pre-trimming the pieces with the comma-list cleanup does not change what is kept. */
  lemma {:induction false} KeepDomainsTidy(parts: seq<string>)
    ensures KeepDomains(Config.Tidy(parts)) == KeepDomains(parts)
  {
    if |parts| > 0 {
      KeepDomainsTidy(parts[1..]);
      var h := TrimSpace(parts[0]);
      if |h| > 0 {
        TrimSpaceTrimmed(h);
        assert ([h] + Config.Tidy(parts[1..]))[1..] == Config.Tidy(parts[1..]);
      }
    }
  }

  lemma {:induction false} KeepPrefixed(ds: seq<string>)
    requires forall i :: 0 <= i < |ds| ==> PlainDomain(ds[i])
    ensures KeepDomains(Prefixed(ds)) == ds
  {
    if |ds| > 0 {
      var u := Scheme + ds[0];
      assert !IsSpace(u[0]) && u[|u| - 1] == ds[0][|ds[0]| - 1];
      TrimSpaceTrimmed(u);
      assert HasPrefix(u, Scheme);
      assert Prefixed(ds)[1..] == Prefixed(ds[1..]);
      KeepPrefixed(ds[1..]);
    }
  }

  /** One scheme-prefixed plain domain is a clean list item on one line. */
  lemma PrefixedItem(d: string)
    requires PlainDomain(d)
    ensures Scheme + d != "" && Trimmed(Scheme + d)
    ensures ',' !in Scheme + d && '\n' !in Scheme + d
  {
    var u := Scheme + d;
    assert !IsSpace(u[0]) && u[|u| - 1] == d[|d| - 1];
    forall k | 0 <= k < |u|
      ensures u[k] != ',' && u[k] != '\n'
    {
      if k >= |Scheme| {
        assert u[k] == d[k - |Scheme|];
        assert !IsSpace(d[k - |Scheme|]);
      }
    }
  }

  /** The scheme-prefixed domains form a clean comma list. */
  lemma PrefixedWellFormed(ds: seq<string>)
    requires forall i :: 0 <= i < |ds| ==> PlainDomain(ds[i])
    ensures Config.WellFormedItems(Prefixed(ds))
    ensures forall i :: 0 <= i < |ds| ==> '\n' !in Prefixed(ds)[i]
  {
    var us := Prefixed(ds);
    forall i | 0 <= i < |us|
      ensures us[i] != "" && Trimmed(us[i]) && ',' !in us[i] && '\n' !in us[i]
    {
      PrefixedItem(ds[i]);
    }
  }

  /** A join of non-empty parts starts with the first part and ends where the last one does. */
  lemma {:induction false} JoinEnds(parts: seq<string>, sep: string)
    requires |parts| > 0
    requires forall i :: 0 <= i < |parts| ==> parts[i] != ""
    ensures HasPrefix(Join(parts, sep), parts[0])
    ensures Join(parts, sep)[|Join(parts, sep)| - 1] == parts[|parts| - 1][|parts[|parts| - 1]| - 1]
  {
    if |parts| > 1 {
      JoinEnds(parts[1..], sep);
      var rest := Join(parts[1..], sep);
      assert Join(parts, sep) == parts[0] + sep + rest;
    }
  }

  /** A character in neither the parts nor the separator is not in their join. */
  lemma {:induction false} JoinKeepsOut(parts: seq<string>, sep: string, c: char)
    requires c !in sep
    requires forall i :: 0 <= i < |parts| ==> c !in parts[i]
    ensures c !in Join(parts, sep)
  {
    if |parts| > 1 {
      JoinKeepsOut(parts[1..], sep, c);
      assert Join(parts, sep) == parts[0] + sep + Join(parts[1..], sep);
    }
  }

  /** Writing plain domains as a header and reading it back gives them back in order. */
  lemma HeaderRoundTrip(ds: seq<string>)
    requires |ds| > 0
    requires forall i :: 0 <= i < |ds| ==> PlainDomain(ds[i])
    ensures IsHeader(HeaderLine(ds))
    ensures HeaderDomains(TrimSpace(HeaderLine(ds))) == ds
  {
    var us := Prefixed(ds);
    PrefixedWellFormed(ds);
    var j := Join(us, ", ");
    JoinEnds(us, ", ");
    var line := HeaderLine(ds);
    assert line == j + " {";
    assert Trimmed(j);
    assert line[0] == j[0] && !IsSpace(line[|line| - 1]);
    TrimSpaceTrimmed(line);
    assert HasPrefix(us[0], Scheme);
    assert line[..|Scheme|] == j[..|us[0]|][..|Scheme|];
    assert HasSuffix(line, "{") && line[..|line| - 1] == j + " ";
    assert AllSpace("") && AllSpace(" ") && "" + j + " " == j + " ";
    TrimSpacePadded("", j, " ");
    Config.SplitCommaSeparatedJoin(us);
    assert j != "";
    KeepDomainsTidy(Split(j, ','));
    KeepPrefixed(ds);
  }

  /** A header line is a single line. */
  lemma HeaderOneLine(ds: seq<string>)
    requires forall i :: 0 <= i < |ds| ==> PlainDomain(ds[i])
    ensures '\n' !in HeaderLine(ds)
  {
    PrefixedWellFormed(ds);
    var j := Join(Prefixed(ds), ", ");
    assert '\n' !in ", ";
    JoinKeepsOut(Prefixed(ds), ", ", '\n');
    assert '\n' !in " {";
    assert HeaderLine(ds) == j + " {";
  }

  /** A routing file that opens with the header for `ds` reports exactly `ds`,
      whatever follows it. */
  lemma ExtractHeaderFirst(ds: seq<string>, rest: string)
    requires |ds| > 0
    requires forall i :: 0 <= i < |ds| ==> PlainDomain(ds[i])
    ensures ExtractDomainsFromContent(HeaderLine(ds) + "\n" + rest) == ds
  {
    HeaderRoundTrip(ds);
    HeaderOneLine(ds);
    SplitCons(HeaderLine(ds), '\n', rest);
    FirstHeaderWins(Split(HeaderLine(ds) + "\n" + rest, '\n'), 0);
  }
}
