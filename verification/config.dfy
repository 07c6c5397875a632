/** Parsing and validation of a container's `CADDY_*` environment variables
    into per-service routing records (watcher/config.go). */
module Config {
  import opened Outcomes
  import opened Strs

  const TypeInternal: string := "internal"
  const TypeExternal: string := "external"
  const TypeCloudflare: string := "cloudflare"

  /** The accepted values of `CADDY_TYPE`. */
  const ValidTypes: seq<string> := [TypeInternal, TypeExternal, TypeCloudflare]

  /** One routable service, as parsed from a container's environment. */
  datatype CaddyConfig = CaddyConfig(
    network: string,
    container: string,
    domains: seq<string>,
    typ: string,
    upstream: string,
    allowlist: seq<string>,
    logging: bool,
    dnsProvider: string,
    compression: bool,
    header: bool,
    auth: bool,
    authURL: string,
    authPaths: seq<string>,
    seo: bool,
    wwwRedirect: bool,
    performance: bool,
    security: bool,
    wordPress: bool,
    trustedProxies: seq<string>)

  /** The identity of a config among all configs: container, `_`, network. */
  function ConfigKey(c: CaddyConfig): (k: string)
    ensures |k| == |c.container| + 1 + |c.network|
    ensures k[..|c.container|] == c.container && k[|c.container|] == '_' && k[|c.container| + 1..] == c.network
  {
    c.container + "_" + c.network
  }

  /** Why a declared service was rejected; each carries the variable name it is about. */
  datatype ParseError =
    | MissingKeys(keys: seq<string>)
    | InvalidType(key: string, value: string)
    | InvalidPort(key: string, value: string)
    | InvalidDomain(domain: string)
    | NoValidDomains(key: string)
    | InService(service: string, cause: ParseError)

  // ---------------------------------------------------------------------------
  // Comma-separated lists

  /** No item contains a comma. */
  predicate CommaFree(items: seq<string>) {
    forall i :: 0 <= i < |items| ==> ',' !in items[i]
  }

  lemma TrimSpaceKeepsOut(s: string, c: char)
    requires c !in s
    ensures c !in TrimSpace(s)
  {
    var l := TrimLeft(s);
    var t := TrimRight(l);
    forall i | 0 <= i < |t|
      ensures t[i] != c
    {
      assert t[i] == l[i] == s[|s| - |l| + i];
    }
  }
  lemma CommaFreeCons(pieces: seq<string>)
    requires |pieces| > 0
    ensures CommaFree(pieces) <==> ',' !in pieces[0] && CommaFree(pieces[1..])
  {
    assert forall i :: 1 <= i < |pieces| ==> pieces[1..][i - 1] == pieces[i];
  }
  lemma TrimSpaceKeepsOutIf(s: string, c: char)
    ensures c !in s ==> c !in TrimSpace(s)
  {
    if c !in s { TrimSpaceKeepsOut(s, c); }
  }
  /** Trims every piece and keeps the non-empty ones, in order. */
  function Tidy(pieces: seq<string>): (r: seq<string>)
    ensures |r| <= |pieces|
    ensures forall i :: 0 <= i < |r| ==> r[i] != "" && Trimmed(r[i])
  {
    if |pieces| == 0 then []
    else
      var head := TrimSpace(pieces[0]);
      var rest := Tidy(pieces[1..]);
      if |head| > 0 then
        CleanCons(head, rest);
        [head] + rest
      else rest
  }

  lemma CleanCons(head: string, rest: seq<string>)
    requires head != "" && Trimmed(head)
    requires forall i :: 0 <= i < |rest| ==> rest[i] != "" && Trimmed(rest[i])
    ensures forall i :: 0 <= i < |[head] + rest| ==> ([head] + rest)[i] != "" && Trimmed(([head] + rest)[i])
  {
    assert forall i :: 1 <= i < |[head] + rest| ==> ([head] + rest)[i] == rest[i - 1];
  }

  /** A single piece becomes its trimmed text, or nothing when that is empty. */
  lemma TidyOne(x: string)
    ensures Tidy([x]) == if TrimSpace(x) == "" then [] else [TrimSpace(x)]
  {
  }

  /** Pieces are tidied one at a time, in order: the result of a concatenation
      is the concatenation of the results. */
  lemma {:induction false} TidyAppend(a: seq<string>, b: seq<string>)
    ensures Tidy(a + b) == Tidy(a) + Tidy(b)
    decreases |a|
  {
    if |a| == 0 {
      assert a + b == b;
    } else {
      assert (a + b)[0] == a[0];
      assert (a + b)[1..] == a[1..] + b;
      TidyAppend(a[1..], b);
    }
  }

  /** Trimming never brings a comma in. */
  lemma {:induction false} TidyCommaFree(pieces: seq<string>)
    requires CommaFree(pieces)
    ensures CommaFree(Tidy(pieces))
  {
    if |pieces| > 0 {
      CommaFreeCons(pieces);
      TidyCommaFree(pieces[1..]);
      var head := TrimSpace(pieces[0]);
      if |head| > 0 {
        TrimSpaceKeepsOut(pieces[0], ',');
        var r := [head] + Tidy(pieces[1..]);
        CommaFreeCons(r);
        assert r[1..] == Tidy(pieces[1..]);
      }
    }
  }

  /** `splitCommaSeparated`: the trimmed, non-empty comma-separated items of `s`. */
  function SplitCommaSeparated(s: string): (r: seq<string>)
    ensures s == "" ==> r == []
    ensures s != "" ==> r == Tidy(Split(s, ','))
    ensures forall i :: 0 <= i < |r| ==> r[i] != "" && Trimmed(r[i])
    ensures CommaFree(r)
  {
    if s == "" then []
    else
      TidyCommaFree(Split(s, ','));
      Tidy(Split(s, ','))
  }

  /** Any comma-free pieces joined with "," read back as those pieces tidied:
      trimmed, blanks dropped, order kept. */
  lemma SplitCommaSeparatedPieces(pieces: seq<string>)
    requires |pieces| >= 1 && CommaFree(pieces)
    ensures SplitCommaSeparated(Join(pieces, ",")) == Tidy(pieces)
  {
    SplitJoin(pieces, ',');
    if Join(pieces, ",") == "" {
      assert pieces == [""];
      TidyOne("");
    }
  }

  /** Items that survive a round trip through ", "-joining and splitting. */
  predicate WellFormedItems(items: seq<string>) {
    CommaFree(items) && forall i :: 0 <= i < |items| ==> items[i] != "" && Trimmed(items[i])
  }

  lemma CommaStep(w: string, p: string, j: string)
    ensures w + (p + ", " + j) == (w + p) + [','] + (" " + j)
  {
    assert ", " == [','] + " ";
  }

  lemma TidyCons(x: string, rest: seq<string>)
    requires TrimSpace(x) != ""
    ensures Tidy([x] + rest) == [TrimSpace(x)] + Tidy(rest)
  {
    assert ([x] + rest)[0] == x && ([x] + rest)[1..] == rest;
  }

  lemma WellFormedTail(items: seq<string>)
    requires |items| >= 1 && WellFormedItems(items)
    ensures WellFormedItems(items[1..]) && ',' !in items[0] && items[0] != "" && Trimmed(items[0])
  {
    assert forall i :: 0 <= i < |items[1..]| ==> items[1..][i] == items[i + 1];
  }

  /** Splitting `w + p` at commas when neither part holds one leaves it whole. */
  lemma SplitWhole(w: string, p: string)
    requires ',' !in w && ',' !in p
    ensures Split(w + p, ',') == [w + p]
  {
    assert ',' !in w + p by {
      forall k | 0 <= k < |w + p|
        ensures (w + p)[k] != ','
      {
        if k < |w| {
          assert (w + p)[k] == w[k];
        } else {
          assert (w + p)[k] == p[k - |w|];
        }
      }
    }
  }

  /** One step of the round trip: the first item, then the rest after ", ". */
  lemma TidySplitJoinStep(w: string, p: string, rest: seq<string>)
    requires AllSpace(w) && ',' !in w && ',' !in p && p != "" && Trimmed(p)
    requires Tidy(Split(" " + Join(rest, ", "), ',')) == rest
    ensures Tidy(Split(w + (p + ", " + Join(rest, ", ")), ',')) == [p] + rest
  {
    var j := Join(rest, ", ");
    TrimSpacePadded(w, p, "");
    assert w + p + "" == w + p;
    CommaStep(w, p, j);
    SplitCons(w + p, ',', " " + j);
    TidyCons(w + p, Split(" " + j, ','));
  }

  lemma TidySplitOne(w: string, p: string)
    requires AllSpace(w) && ',' !in w && ',' !in p && p != "" && Trimmed(p)
    ensures Tidy(Split(w + p, ',')) == [p]
  {
    TrimSpacePadded(w, p, "");
    assert w + p + "" == w + p;
    SplitWhole(w, p);
    TidyCons(w + p, []);
    assert [w + p] + [] == [w + p];
    assert Tidy([]) == [];
  }

  lemma {:induction false} TidySplitJoin(w: string, items: seq<string>)
    requires AllSpace(w) && ',' !in w
    requires |items| >= 1 && WellFormedItems(items)
    ensures Tidy(Split(w + Join(items, ", "), ',')) == items
    decreases |items|
  {
    var p := items[0];
    var rest := items[1..];
    assert items == [p] + rest;
    WellFormedTail(items);
    if |rest| == 0 {
      assert Join(items, ", ") == p;
      TidySplitOne(w, p);
    } else {
      assert Join(items, ", ") == p + ", " + Join(rest, ", ");
      assert AllSpace(" ");
      TidySplitJoin(" ", rest);
      TidySplitJoinStep(w, p, rest);
    }
  }

  /** Joining well-formed items with ", " and splitting again gives back the items. */
  lemma SplitCommaSeparatedJoin(items: seq<string>)
    requires WellFormedItems(items)
    ensures SplitCommaSeparated(Join(items, ", ")) == items
  {
    if |items| > 0 {
      TidySplitJoin("", items);
      assert "" + Join(items, ", ") == Join(items, ", ");
      assert Join(items, ", ") != "" by {
        if |items| > 1 {
          assert Join(items, ", ") == items[0] + ", " + Join(items[1..], ", ");
        }
      }
    }
  }

  // ---------------------------------------------------------------------------
  // Domains

  predicate IsLabelChar(c: char) {
    ('a' <= c <= 'z') || ('A' <= c <= 'Z') || ('0' <= c <= '9') || c == '-'
  }

  /** A DNS label as the watcher accepts it. */
  predicate ValidLabel(l: string) {
    1 <= |l| <= 63 && l[0] != '-' && l[|l| - 1] != '-' && forall i :: 0 <= i < |l| ==> IsLabelChar(l[i])
  }

  /** The label loop of `isValidDomain`, stopping at the first bad label. */
  function AllLabelsValid(labels: seq<string>): (ok: bool)
    ensures ok <==> forall i :: 0 <= i < |labels| ==> ValidLabel(labels[i])
  {
    if |labels| == 0 then true
    else if !ValidLabel(labels[0]) then false
    else
      assert forall i :: 1 <= i < |labels| ==> labels[i] == labels[1..][i - 1];
      AllLabelsValid(labels[1..])
  }

  /** `isValidDomain`: 1 to 253 characters, at least one dot, and every
      dot-separated label valid. */
  function IsValidDomain(d: string): (ok: bool)
    ensures ok ==> 1 <= |d| <= 253 && '.' in d
  {
    if |d| == 0 || |d| > 253 then false
    else if '.' !in d then false
    else AllLabelsValid(Split(d, '.'))
  }

  /** What a valid domain looks like: two or more valid labels joined by dots,
      at most 253 characters in all, and every such name passes. */
  lemma ValidDomainJoin(labels: seq<string>)
    requires |labels| >= 2
    requires forall i :: 0 <= i < |labels| ==> ValidLabel(labels[i])
    requires |Join(labels, ".")| <= 253
    ensures IsValidDomain(Join(labels, "."))
  {
    var d := Join(labels, ".");
    forall i | 0 <= i < |labels|
      ensures '.' !in labels[i]
    {
      assert forall k :: 0 <= k < |labels[i]| ==> IsLabelChar(labels[i][k]);
    }
    SplitJoin(labels, '.');
    assert d == labels[0] + "." + Join(labels[1..], ".");
    assert d[|labels[0]|] == '.';
  }

  /** Conversely, every valid domain is such a join: its dot-separated
      pieces are two or more valid labels. */
  lemma ValidDomainSplit(d: string)
    requires IsValidDomain(d)
    ensures |Split(d, '.')| >= 2 && Join(Split(d, '.'), ".") == d
    ensures forall i :: 0 <= i < |Split(d, '.')| ==> ValidLabel(Split(d, '.')[i])
  {
    var i := IndexOf(d, '.');
    assert Split(d, '.') == [d[..i]] + Split(d[i + 1..], '.');
  }

  /** Every character of a `sep`-join comes from a part or is the separator. */
  lemma {:induction false} JoinChars(parts: seq<string>, sep: char, k: int)
    requires 0 <= k < |Join(parts, [sep])|
    ensures Join(parts, [sep])[k] == sep || exists i, m :: 0 <= i < |parts| && 0 <= m < |parts[i]| && parts[i][m] == Join(parts, [sep])[k]
  {
    var j := Join(parts, [sep]);
    if |parts| == 1 {
      assert parts[0][k] == j[k];
    } else {
      var rest := Join(parts[1..], [sep]);
      assert j == parts[0] + [sep] + rest;
      if k < |parts[0]| {
        assert parts[0][k] == j[k];
      } else if k > |parts[0]| {
        var k' := k - |parts[0]| - 1;
        assert rest[k'] == j[k];
        JoinChars(parts[1..], sep, k');
        if rest[k'] != sep {
          var i, m :| 0 <= i < |parts[1..]| && 0 <= m < |parts[1..][i]| && parts[1..][i][m] == rest[k'];
          assert parts[i + 1][m] == j[k];
        }
      }
    }
  }

  /** A valid domain consists of letters, digits, hyphens and dots only. */
  lemma ValidDomainChars(d: string)
    requires IsValidDomain(d)
    ensures forall k :: 0 <= k < |d| ==> IsLabelChar(d[k]) || d[k] == '.'
  {
    var parts := Split(d, '.');
    forall k | 0 <= k < |d|
      ensures IsLabelChar(d[k]) || d[k] == '.'
    {
      JoinChars(parts, '.', k);
    }
  }

  /** A valid domain is a non-empty list item: no white space, no comma. */
  lemma ValidDomainPlain(d: string)
    requires IsValidDomain(d)
    ensures d != "" && Trimmed(d) && ',' !in d
  {
    ValidDomainChars(d);
    assert !IsSpace(d[0]) && !IsSpace(d[|d| - 1]);
  }

  /** Valid domains survive being written as a ", "-separated list and parsed back. */
  lemma DomainListRoundTrip(ds: seq<string>)
    requires forall i :: 0 <= i < |ds| ==> IsValidDomain(ds[i])
    ensures SplitCommaSeparated(Join(ds, ", ")) == ds
  {
    forall i | 0 <= i < |ds|
      ensures ds[i] != "" && Trimmed(ds[i]) && ',' !in ds[i]
    {
      ValidDomainPlain(ds[i]);
    }
    SplitCommaSeparatedJoin(ds);
  }

  /** The first domain that fails `IsValidDomain`, if any. */
  function FirstInvalidDomain(ds: seq<string>): (r: Option<string>)
    ensures r.None? <==> forall i :: 0 <= i < |ds| ==> IsValidDomain(ds[i])
    ensures r.Some? ==> r.value in ds && !IsValidDomain(r.value)
  {
    if |ds| == 0 then None
    else if !IsValidDomain(ds[0]) then Some(ds[0])
    else
      assert forall i :: 1 <= i < |ds| ==> ds[i] == ds[1..][i - 1];
      FirstInvalidDomain(ds[1..])
  }

  // ---------------------------------------------------------------------------
  // Single service

  /** `env[key]`, with Go's empty string for a missing key. */
  function Get(env: map<string, string>, key: string): string {
    if key in env then env[key] else ""
  }

  /** True when `key` is set to exactly `value`. */
  predicate SetTo(env: map<string, string>, key: string, value: string) {
    key in env && env[key] == value
  }

  /** The variable name for `base`: as is in single-service mode, `base_<service>` otherwise. */
  function Key(base: string, service: Option<string>): string {
    match service
    case None => base
    case Some(s) => base + "_" + s
  }

  /** A parsed config is routable: domains present and valid, type one of the three. */
  predicate Routable(c: CaddyConfig) {
    |c.domains| > 0 && (forall i :: 0 <= i < |c.domains| ==> IsValidDomain(c.domains[i])) && c.typ in ValidTypes
  }

  /** All checks after the trigger passed for the given raw values. */
  predicate Acceptable(domain: string, typ: string, port: string) {
    && typ != "" && port != ""
    && typ in ValidTypes
    && Atoi(port).Some?
    && |SplitCommaSeparated(domain)| > 0
    && AllValidDomains(SplitCommaSeparated(domain))
  }

  /** The optional variables' defaults: some flags are on only for "true",
      others off only for "false", and the DNS provider defaults to cloudflare. */
  predicate FlagsFrom(env: map<string, string>, service: Option<string>, c: CaddyConfig) {
    && (c.logging <==> SetTo(env, Key("CADDY_LOGGING", service), "true"))
    && (c.auth <==> SetTo(env, Key("CADDY_AUTH", service), "true"))
    && (c.seo <==> SetTo(env, Key("CADDY_SEO", service), "true"))
    && (c.wwwRedirect <==> SetTo(env, Key("CADDY_WWW_REDIRECT", service), "true"))
    && (c.wordPress <==> SetTo(env, Key("CADDY_WORDPRESS", service), "true"))
    && (!c.compression <==> SetTo(env, Key("CADDY_COMPRESSION", service), "false"))
    && (!c.header <==> SetTo(env, Key("CADDY_HEADER", service), "false"))
    && (!c.performance <==> SetTo(env, Key("CADDY_PERFORMANCE", service), "false"))
    && (!c.security <==> SetTo(env, Key("CADDY_SECURITY", service), "false"))
    && (c.dnsProvider == if Get(env, Key("CADDY_DNS_PROVIDER", service)) == "" then "cloudflare"
                         else env[Key("CADDY_DNS_PROVIDER", service)])
    && c.authURL == Get(env, Key("CADDY_AUTH_URL", service))
    && c.allowlist == SplitCommaSeparated(Get(env, Key("CADDY_ALLOWLIST", service)))
    && c.authPaths == SplitCommaSeparated(Get(env, Key("CADDY_AUTH_PATHS", service)))
    && c.trustedProxies == SplitCommaSeparated(Get(env, Key("CADDY_TRUSTED_PROXIES", service)))
  }

  /** A config for an accepted service: the fixed fields as given, the
      optional ones read from `env` with their defaults. */
  function Build(env: map<string, string>, service: Option<string>, network: string, container: string,
                 domains: seq<string>, typ: string, upstream: string): (c: CaddyConfig)
    ensures FlagsFrom(env, service, c)
    ensures c.network == network && c.container == container && c.domains == domains
    ensures c.typ == typ && c.upstream == upstream
  {
    CaddyConfig(
      network := network,
      container := container,
      domains := domains,
      typ := typ,
      upstream := upstream,
      allowlist := SplitCommaSeparated(Get(env, Key("CADDY_ALLOWLIST", service))),
      logging := Get(env, Key("CADDY_LOGGING", service)) == "true",
      dnsProvider := if Get(env, Key("CADDY_DNS_PROVIDER", service)) == "" then "cloudflare"
                     else Get(env, Key("CADDY_DNS_PROVIDER", service)),
      compression := Get(env, Key("CADDY_COMPRESSION", service)) != "false",
      header := Get(env, Key("CADDY_HEADER", service)) != "false",
      auth := Get(env, Key("CADDY_AUTH", service)) == "true",
      authURL := Get(env, Key("CADDY_AUTH_URL", service)),
      authPaths := SplitCommaSeparated(Get(env, Key("CADDY_AUTH_PATHS", service))),
      seo := Get(env, Key("CADDY_SEO", service)) == "true",
      wwwRedirect := Get(env, Key("CADDY_WWW_REDIRECT", service)) == "true",
      performance := Get(env, Key("CADDY_PERFORMANCE", service)) != "false",
      security := Get(env, Key("CADDY_SECURITY", service)) != "false",
      wordPress := Get(env, Key("CADDY_WORDPRESS", service)) == "true",
      trustedProxies := SplitCommaSeparated(Get(env, Key("CADDY_TRUSTED_PROXIES", service))))
  }

  /** The body shared by `ParseCaddyEnv` (no service suffix) and
      `parseSingleServiceEnv` (suffix `_<service>`); the two differ only in
      what an empty domain means and in the container name. */
  function ParseService(env: map<string, string>, network: string, containerName: string,
                        service: Option<string>): (r: Result<Option<CaddyConfig>, ParseError>)
    ensures r == Ok(None) <==> service.None? && Get(env, Key("CADDY_DOMAIN", service)) == ""
    ensures r.Err? <==> if Get(env, Key("CADDY_DOMAIN", service)) == "" then service.Some?
                        else !Acceptable(Get(env, Key("CADDY_DOMAIN", service)), Get(env, Key("CADDY_TYPE", service)),
                                         Get(env, Key("CADDY_PORT", service)))
    ensures Get(env, Key("CADDY_DOMAIN", service)) != ""
            && (Get(env, Key("CADDY_TYPE", service)) == "" || Get(env, Key("CADDY_PORT", service)) == "")
            ==> (r.Err? && r.error.MissingKeys?
                 && forall k :: k in r.error.keys <==> ((k == Key("CADDY_TYPE", service) && Get(env, Key("CADDY_TYPE", service)) == "")
                                                     || (k == Key("CADDY_PORT", service) && Get(env, Key("CADDY_PORT", service)) == "")))
    ensures r.Ok? && r.value.Some? ==>
      var c := r.value.value;
      var name := TrimPrefix(containerName, "/");
      && Routable(c)
      && c.network == network
      && c.container == (match service case None => name case Some(s) => name + "-" + s)
      && c.upstream == name + ":" + Get(env, Key("CADDY_PORT", service))
      && c.typ == Get(env, Key("CADDY_TYPE", service))
      && c.domains == SplitCommaSeparated(Get(env, Key("CADDY_DOMAIN", service)))
      && FlagsFrom(env, service, c)
  {
    var domainKey := Key("CADDY_DOMAIN", service);
    var typeKey := Key("CADDY_TYPE", service);
    var portKey := Key("CADDY_PORT", service);
    var domain := Get(env, domainKey);
    var typ := Get(env, typeKey);
    var port := Get(env, portKey);
    if domain == "" then
      if service.None? then Ok(None) else Err(MissingKeys([domainKey]))
    else
      match Validate(domainKey, typeKey, portKey, domain, typ, port)
      case Err(e) => Err(e)
      case Ok(domains) =>
        var name := TrimPrefix(containerName, "/");
        var container := match service case None => name case Some(s) => name + "-" + s;
        Ok(Some(Build(env, service, network, container, domains, typ, name + ":" + port)))
  }

  /** The checks after the trigger, in the program's order: type and port
      present, type known, port numeric, every domain valid, some domain left. */
  function Validate(domainKey: string, typeKey: string, portKey: string, domain: string, typ: string, port: string)
    : (r: Result<seq<string>, ParseError>)
    ensures r.Ok? <==> Acceptable(domain, typ, port)
    ensures r.Ok? ==> r.value == SplitCommaSeparated(domain)
    ensures typ == "" || port == "" ==>
              (r.Err? && r.error.MissingKeys?
               && forall k :: k in r.error.keys <==> ((k == typeKey && typ == "") || (k == portKey && port == "")))
  {
    if typ == "" || port == "" then
      Err(MissingKeys((if typ == "" then [typeKey] else []) + (if port == "" then [portKey] else [])))
    else if typ !in ValidTypes then
      Err(InvalidType(typeKey, typ))
    else if Atoi(port).None? then
      Err(InvalidPort(portKey, port))
    else
      var domains := SplitCommaSeparated(domain);
      AllValidDomainsMeans(domains);
      match FirstInvalidDomain(domains)
      case Some(d) => Err(InvalidDomain(d))
      case None =>
        if |domains| == 0 then Err(NoValidDomains(domainKey)) else Ok(domains)
  }

  /** `ParseCaddyEnv`: nothing when `CADDY_DOMAIN` is unset or empty, an error
      naming the failed check, or a routable config built from the variables. */
  function ParseCaddyEnv(env: map<string, string>, network: string, containerName: string)
    : (r: Result<Option<CaddyConfig>, ParseError>)
    ensures r == Ok(None) <==> !("CADDY_DOMAIN" in env && env["CADDY_DOMAIN"] != "")
    ensures r.Err? <==> Get(env, "CADDY_DOMAIN") != ""
                        && !Acceptable(Get(env, "CADDY_DOMAIN"), Get(env, "CADDY_TYPE"), Get(env, "CADDY_PORT"))
    ensures Get(env, "CADDY_DOMAIN") != "" && (Get(env, "CADDY_TYPE") == "" || Get(env, "CADDY_PORT") == "")
            ==> (r.Err? && r.error.MissingKeys?
                 && forall k :: k in r.error.keys <==> ((k == "CADDY_TYPE" && Get(env, "CADDY_TYPE") == "")
                                                     || (k == "CADDY_PORT" && Get(env, "CADDY_PORT") == "")))
    ensures r.Ok? && r.value.Some? ==>
      var c := r.value.value;
      && Routable(c)
      && c.network == network
      && c.container == TrimPrefix(containerName, "/")
      && c.upstream == c.container + ":" + env["CADDY_PORT"]
      && c.typ == env["CADDY_TYPE"]
      && c.domains == SplitCommaSeparated(env["CADDY_DOMAIN"])
      && FlagsFrom(env, None, c)
  {
    ParseService(env, network, containerName, None)
  }

  /** Every domain in the list passes `IsValidDomain`. */
  predicate AllValidDomains(ds: seq<string>) {
    |ds| == 0 || (IsValidDomain(ds[0]) && AllValidDomains(ds[1..]))
  }

  lemma {:induction false} AllValidDomainsMeans(ds: seq<string>)
    ensures AllValidDomains(ds) <==> forall i :: 0 <= i < |ds| ==> IsValidDomain(ds[i])
  {
    if |ds| > 0 {
      AllValidDomainsMeans(ds[1..]);
      assert forall i :: 1 <= i < |ds| ==> ds[i] == ds[1..][i - 1];
    }
  }

  /** A container whose `CADDY_DOMAIN` lists valid domains with ", ", with a
      valid type and a numeric port, is accepted, and its config lists
      exactly those domains in that order. */
  lemma ParseCaddyEnvAccepts(env: map<string, string>, network: string, containerName: string, ds: seq<string>)
    requires |ds| > 0 && AllValidDomains(ds)
    requires SetTo(env, "CADDY_DOMAIN", Join(ds, ", "))
    requires "CADDY_TYPE" in env && env["CADDY_TYPE"] in ValidTypes
    requires "CADDY_PORT" in env && Atoi(env["CADDY_PORT"]).Some?
    ensures ParseCaddyEnv(env, network, containerName).Ok?
    ensures ParseCaddyEnv(env, network, containerName).value.Some?
    ensures ParseCaddyEnv(env, network, containerName).value.value.domains == ds
  {
    assert Get(env, "CADDY_DOMAIN") != ""
        && Acceptable(Get(env, "CADDY_DOMAIN"), Get(env, "CADDY_TYPE"), Get(env, "CADDY_PORT"))
        && SplitCommaSeparated(Get(env, "CADDY_DOMAIN")) == ds by {
      DomainsAcceptable(ds, env["CADDY_TYPE"], env["CADDY_PORT"]);
    }
    AcceptedParses(env, network, containerName);
  }

  lemma DomainsAcceptable(ds: seq<string>, typ: string, port: string)
    requires |ds| > 0 && AllValidDomains(ds)
    requires typ in ValidTypes && Atoi(port).Some?
    ensures Join(ds, ", ") != "" && SplitCommaSeparated(Join(ds, ", ")) == ds
    ensures Acceptable(Join(ds, ", "), typ, port)
  {
    DomainsJoinBack(ds);
    AcceptableFrom(Join(ds, ", "), ds, typ, port);
  }

  /** A domain list that reads back as valid domains, with a valid type and a
      numeric port, is acceptable. */
  lemma AcceptableFrom(domain: string, ds: seq<string>, typ: string, port: string)
    requires |ds| > 0 && AllValidDomains(ds) && typ in ValidTypes && Atoi(port).Some?
    requires SplitCommaSeparated(domain) == ds
    ensures Acceptable(domain, typ, port)
  {
    AtoiNonEmpty(port);
    TypeNonEmpty(typ);
  }

  lemma TypeNonEmpty(typ: string)
    requires typ in ValidTypes
    ensures typ != ""
  {
  }

  /** Valid domains joined with ", " form a non-empty list that parses back to them. */
  lemma DomainsJoinBack(ds: seq<string>)
    requires |ds| > 0 && AllValidDomains(ds)
    ensures Join(ds, ", ") != "" && SplitCommaSeparated(Join(ds, ", ")) == ds
  {
    AllValidDomainsMeans(ds);
    ValidDomainPlain(ds[0]);
    JoinNonEmpty(ds, ", ");
    DomainListRoundTrip(ds);
  }

  lemma JoinNonEmpty(parts: seq<string>, sep: string)
    requires |parts| > 0 && parts[0] != ""
    ensures Join(parts, sep) != ""
  {
    if |parts| > 1 {
      assert Join(parts, sep) == parts[0] + sep + Join(parts[1..], sep);
    }
  }

  lemma AcceptedParses(env: map<string, string>, network: string, containerName: string)
    requires Get(env, "CADDY_DOMAIN") != ""
    requires Acceptable(Get(env, "CADDY_DOMAIN"), Get(env, "CADDY_TYPE"), Get(env, "CADDY_PORT"))
    ensures ParseCaddyEnv(env, network, containerName).Ok?
    ensures ParseCaddyEnv(env, network, containerName).value.Some?
    ensures ParseCaddyEnv(env, network, containerName).value.value.domains == SplitCommaSeparated(Get(env, "CADDY_DOMAIN"))
  {
  }

  /** `parseSingleServiceEnv`: one service of a multi-service container. It
      never yields "nothing": an empty `CADDY_DOMAIN_<service>` is an error. */
  function ParseSingleServiceEnv(env: map<string, string>, network: string, containerName: string, service: string)
    : (r: Result<Option<CaddyConfig>, ParseError>)
    ensures r.Ok? ==> r.value.Some?
    ensures Get(env, "CADDY_DOMAIN_" + service) == "" ==> r.Err?
  {
    assert Key("CADDY_DOMAIN", Some(service)) == "CADDY_DOMAIN_" + service;
    ParseService(env, network, containerName, Some(service))
  }

  /** What `parseSingleServiceEnv` accepts and what it builds, in terms of the
      `_<service>`-suffixed variables. */
  lemma ParseSingleServiceEnvSpec(env: map<string, string>, network: string, containerName: string, service: string)
    ensures var r := ParseSingleServiceEnv(env, network, containerName, service);
      && (r.Err? <==> Get(env, "CADDY_DOMAIN_" + service) == ""
                      || !Acceptable(Get(env, "CADDY_DOMAIN_" + service), Get(env, "CADDY_TYPE_" + service),
                                     Get(env, "CADDY_PORT_" + service)))
      && (r.Ok? ==>
           var c := r.value.value;
           && Routable(c)
           && c.network == network
           && c.container == TrimPrefix(containerName, "/") + "-" + service
           && c.upstream == TrimPrefix(containerName, "/") + ":" + env["CADDY_PORT_" + service]
           && c.typ == env["CADDY_TYPE_" + service]
           && c.domains == SplitCommaSeparated(env["CADDY_DOMAIN_" + service])
           && FlagsFrom(env, Some(service), c))
  {
    SuffixedKey("CADDY_DOMAIN", "CADDY_DOMAIN_", service);
    SuffixedKey("CADDY_TYPE", "CADDY_TYPE_", service);
    SuffixedKey("CADDY_PORT", "CADDY_PORT_", service);
  }

  lemma SuffixedKey(base: string, prefix: string, service: string)
    requires prefix == base + "_"
    ensures Key(base, Some(service)) == prefix + service
  {
  }

  // ---------------------------------------------------------------------------
  // Multiple services

  const DomainPrefix: string := "CADDY_DOMAIN_"

  /** `extractServiceNames`, as a set: the non-empty suffixes of the
      `CADDY_DOMAIN_`-prefixed variable names. */
  function ServiceNames(env: map<string, string>): (names: set<string>)
    ensures forall s :: s in names <==> s != "" && DomainPrefix + s in env
  {
    var names := set k | k in env && HasPrefix(k, DomainPrefix) && |k| > |DomainPrefix| :: k[|DomainPrefix|..];
    assert forall s :: s != "" && DomainPrefix + s in env ==> s in names by {
      forall s | s != "" && DomainPrefix + s in env
        ensures s in names
      {
        var k := DomainPrefix + s;
        assert k[|DomainPrefix|..] == s;
        assert HasPrefix(k, DomainPrefix);
      }
    }
    assert forall s :: s in names ==> DomainPrefix + s in env by {
      forall s | s in names
        ensures DomainPrefix + s in env
      {
        var k :| k in env && HasPrefix(k, DomainPrefix) && |k| > |DomainPrefix| && k[|DomainPrefix|..] == s;
        assert k == DomainPrefix + s;
      }
    }
    names
  }

  /** `names` lists every element of `s` exactly once (Go's map iteration
      order is unspecified, so any such listing may occur). */
  ghost predicate Enumerates(names: seq<string>, s: set<string>) {
    && (forall i, j :: 0 <= i < j < |names| ==> names[i] != names[j])
    && (forall x :: x in names <==> x in s)
  }

  /** The loop of `parseMultiServiceEnv` for any per-service parser: parse
      each name in turn, keep the configs produced, and give up at the first
      failure, reporting which service failed. */
  function ParseEach(parse: string -> Result<Option<CaddyConfig>, ParseError>, names: seq<string>)
    : (r: Result<seq<CaddyConfig>, ParseError>)
    ensures r.Ok? <==> forall i :: 0 <= i < |names| ==> parse(names[i]).Ok?
    ensures r.Ok? ==> forall c :: c in r.value <==> exists i :: 0 <= i < |names| && parse(names[i]) == Ok(Some(c))
    ensures r.Err? ==> (r.error.InService? && r.error.service in names && parse(r.error.service) == Err(r.error.cause))
  {
    if |names| == 0 then Ok([])
    else
      var rest := ParseEach(parse, names[1..]);
      assert forall i :: 1 <= i < |names| ==> names[i] == names[1..][i - 1];
      match parse(names[0])
      case Err(e) => Err(InService(names[0], e))
      case Ok(c) =>
        match rest
        case Err(e) => Err(e)
        case Ok(cs) =>
          var r := if c.Some? then [c.value] + cs else cs;
          assert forall x :: x in r <==> exists i :: 0 <= i < |names| && parse(names[i]) == Ok(Some(x)) by {
            forall x
              ensures x in r <==> exists i :: 0 <= i < |names| && parse(names[i]) == Ok(Some(x))
            {
              if x in cs {
                var i :| 0 <= i < |names[1..]| && parse(names[1..][i]) == Ok(Some(x));
                assert parse(names[i + 1]) == Ok(Some(x));
              }
              if exists i :: 0 <= i < |names| && parse(names[i]) == Ok(Some(x)) {
                var i :| 0 <= i < |names| && parse(names[i]) == Ok(Some(x));
                if i > 0 {
                  assert parse(names[1..][i - 1]) == Ok(Some(x));
                }
              }
            }
          }
          Ok(r)
  }

  /** `parseMultiServiceEnv`: parses each service in turn and gives up at the first failure. */
  function ParseMultiServiceEnv(env: map<string, string>, network: string, containerName: string, names: seq<string>)
    : (r: Result<seq<CaddyConfig>, ParseError>)
    ensures r.Ok? <==> forall i :: 0 <= i < |names| ==> ParseSingleServiceEnv(env, network, containerName, names[i]).Ok?
    ensures r.Ok? ==> forall c :: c in r.value <==>
              exists i :: 0 <= i < |names| && ParseSingleServiceEnv(env, network, containerName, names[i]) == Ok(Some(c))
    ensures r.Err? ==> r.error.InService? && r.error.service in names
  {
    ParseEach(s => ParseSingleServiceEnv(env, network, containerName, s), names)
  }

  /** For any parser, visiting an enumeration of a set of names fails exactly
      when some name in the set fails, and then names one of them. */
  lemma EachFailure(parse: string -> Result<Option<CaddyConfig>, ParseError>, order: seq<string>, names: set<string>)
    requires Enumerates(order, names)
    ensures var r := ParseEach(parse, order);
      && (r.Err? <==> exists s :: s in names && parse(s).Err?)
      && (r.Err? ==> r.error.InService? && r.error.service in names)
  {
    var r := ParseEach(parse, order);
    if r.Err? {
      assert parse(r.error.service).Err?;
    }
    if exists s :: s in names && parse(s).Err? {
      var s :| s in names && parse(s).Err?;
      var i :| 0 <= i < |order| && order[i] == s;
      assert !parse(order[i]).Ok?;
    }
  }

  /** For any parser, a successful visit of an enumeration yields exactly the
      configs of the names in the set. */
  lemma EachConfigs(parse: string -> Result<Option<CaddyConfig>, ParseError>, order: seq<string>, names: set<string>)
    requires Enumerates(order, names)
    ensures var r := ParseEach(parse, order);
      r.Ok? ==> forall c :: c in r.value <==> exists s :: s in names && parse(s) == Ok(Some(c))
  {
    var r := ParseEach(parse, order);
    if r.Ok? {
      forall c
        ensures c in r.value <==> exists s :: s in names && parse(s) == Ok(Some(c))
      {
        if c in r.value {
          var i :| 0 <= i < |order| && parse(order[i]) == Ok(Some(c));
          assert order[i] in order;
        }
        if exists s :: s in names && parse(s) == Ok(Some(c)) {
          var s :| s in names && parse(s) == Ok(Some(c));
          var i :| 0 <= i < |order| && order[i] == s;
          assert parse(order[i]) == Ok(Some(c));
        }
      }
    }
  }

  /** Multi-service parsing fails exactly when some service fails, and then
      names a service that failed. */
  lemma MultiFailure(env: map<string, string>, network: string, containerName: string, order: seq<string>)
    requires Enumerates(order, ServiceNames(env))
    ensures var r := ParseMultiServiceEnv(env, network, containerName, order);
      && (r.Err? <==> exists s :: s in ServiceNames(env) && ParseSingleServiceEnv(env, network, containerName, s).Err?)
      && (r.Err? ==> r.error.InService? && r.error.service in ServiceNames(env))
  {
    EachFailure(s => ParseSingleServiceEnv(env, network, containerName, s), order, ServiceNames(env));
  }

  /** The configs of a successful multi-service parse are exactly those of its services. */
  lemma MultiConfigs(env: map<string, string>, network: string, containerName: string, order: seq<string>)
    requires Enumerates(order, ServiceNames(env))
    ensures var r := ParseMultiServiceEnv(env, network, containerName, order);
      r.Ok? ==> forall c :: c in r.value <==>
        exists s :: s in ServiceNames(env) && ParseSingleServiceEnv(env, network, containerName, s) == Ok(Some(c))
  {
    EachConfigs(s => ParseSingleServiceEnv(env, network, containerName, s), order, ServiceNames(env));
  }

  /** `ParseAllCaddyEnv` with the service names listed in `order`, Go's map
      iteration order: multi-service mode when any `CADDY_DOMAIN_<s>` exists,
      otherwise the single-service result as a list of at most one. Whether
      a multi-service container is accepted, and the configs it yields, depend
      only on the set of service names, not on the order they are visited in. */
  function ParseAllCaddyEnv(env: map<string, string>, network: string, containerName: string, order: seq<string>)
    : (r: Result<seq<CaddyConfig>, ParseError>)
    requires Enumerates(order, ServiceNames(env))
    ensures ServiceNames(env) == {} ==>
      match ParseCaddyEnv(env, network, containerName)
      case Err(e) => r == Err(e)
      case Ok(None) => r == Ok([])
      case Ok(Some(c)) => r == Ok([c])
    ensures ServiceNames(env) != {} ==>
      (r.Err? <==> exists s :: s in ServiceNames(env) && ParseSingleServiceEnv(env, network, containerName, s).Err?)
    ensures ServiceNames(env) != {} && r.Ok? ==>
      forall c :: c in r.value <==>
        exists s :: s in ServiceNames(env) && ParseSingleServiceEnv(env, network, containerName, s) == Ok(Some(c))
    ensures r.Err? && ServiceNames(env) != {} ==>
      r.error.InService? && r.error.service in ServiceNames(env)
  {
    if |order| > 0 then
      assert order[0] in order;
      MultiFailure(env, network, containerName, order);
      MultiConfigs(env, network, containerName, order);
      ParseMultiServiceEnv(env, network, containerName, order)
    else
      assert ServiceNames(env) == {} by {
        forall s | s in ServiceNames(env)
          ensures s in order
        {
        }
      }
      match ParseCaddyEnv(env, network, containerName)
      case Err(e) => Err(e)
      case Ok(None) => Ok([])
      case Ok(Some(c)) => Ok([c])
  }

  // ---------------------------------------------------------------------------
  // Process configuration

  /** The watcher's own settings, read from its environment. */
  datatype Settings = Settings(
    caddyContainer: string,
    networkSuffix: string,
    hostsDir: string,
    dnsRefreshInterval: int,
    codeEditorURL: string,
    wildcardDomains: seq<string>,
    wildcardDNSProvider: string)

  const DefaultNetworkSuffix: string := "_caddy"

  /** `LoadConfig`, with the process environment passed in as a map. */
  function LoadConfig(getenv: map<string, string>): (cfg: Settings)
    ensures cfg.caddyContainer == (if Get(getenv, "COMPOSE_PROJECT_NAME") == "" then "caddy"
                                   else getenv["COMPOSE_PROJECT_NAME"]) + "-app-1"
    ensures cfg.networkSuffix != ""
    ensures Get(getenv, "NETWORK_SUFFIX") != "" ==> cfg.networkSuffix == getenv["NETWORK_SUFFIX"]
    ensures Get(getenv, "NETWORK_SUFFIX") == "" ==> cfg.networkSuffix == DefaultNetworkSuffix
    ensures cfg.dnsRefreshInterval > 0
    ensures Atoi(Get(getenv, "DNS_REFRESH_INTERVAL")).Some? && Atoi(Get(getenv, "DNS_REFRESH_INTERVAL")).value > 0
            ==> cfg.dnsRefreshInterval == Atoi(getenv["DNS_REFRESH_INTERVAL"]).value
    ensures !(Atoi(Get(getenv, "DNS_REFRESH_INTERVAL")).Some? && Atoi(Get(getenv, "DNS_REFRESH_INTERVAL")).value > 0)
            ==> cfg.dnsRefreshInterval == 60
    ensures cfg.hostsDir == if Get(getenv, "HOSTS_DIR") == "" then "/hosts" else getenv["HOSTS_DIR"]
    ensures cfg.codeEditorURL == Get(getenv, "CODE_EDITOR_URL")
    ensures cfg.wildcardDomains == SplitCommaSeparated(Get(getenv, "WILDCARD_DOMAINS"))
    ensures cfg.wildcardDNSProvider != ""
    ensures Get(getenv, "WILDCARD_DNS_PROVIDER") == "" ==> cfg.wildcardDNSProvider == "cloudflare"
    ensures Get(getenv, "WILDCARD_DNS_PROVIDER") != "" ==> cfg.wildcardDNSProvider == getenv["WILDCARD_DNS_PROVIDER"]
  {
    var raw := Get(getenv, "DNS_REFRESH_INTERVAL");
    var interval := if raw != "" && Atoi(raw).Some? && Atoi(raw).value > 0 then Atoi(raw).value else 60;
    var domains := SplitCommaSeparated(Get(getenv, "WILDCARD_DOMAINS"));
    Settings(OrDefault(getenv, "COMPOSE_PROJECT_NAME", "caddy") + "-app-1", OrDefault(getenv, "NETWORK_SUFFIX", DefaultNetworkSuffix),
             OrDefault(getenv, "HOSTS_DIR", "/hosts"), interval, Get(getenv, "CODE_EDITOR_URL"),
             domains, OrDefault(getenv, "WILDCARD_DNS_PROVIDER", "cloudflare"))
  }

  /** A variable's value, or `fallback` when it is unset or empty. */
  function OrDefault(getenv: map<string, string>, key: string, fallback: string): (v: string)
    ensures Get(getenv, key) == "" ==> v == fallback
    ensures Get(getenv, key) != "" ==> key in getenv && v == getenv[key]
  {
    if Get(getenv, key) == "" then fallback else Get(getenv, key)
  }

  /** An empty environment gives every documented default. */
  lemma LoadConfigDefaults()
    ensures LoadConfig(map[]) == Settings("caddy-app-1", DefaultNetworkSuffix, "/hosts", 60, "", [], "cloudflare")
  {
  }
}
