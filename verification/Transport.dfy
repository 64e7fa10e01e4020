/** Transport selection: dialog, `~/.ssh/config` defaults, route candidates and the LAN candidate
    (`connect.rs` feeding `routing.rs`), and the second `~/.ssh/config` pass of the connector. */
module Transport {
  import opened Text
  import opened Protocols

  datatype ProxyType = NoProxy | Socks5 | HttpConnect

  function DefaultProxyPort(p: ProxyType): (n: nat) {
    match p case Socks5 => 1080 case HttpConnect => 8080 case NoProxy => 0
  }

  /** The proxy fields and the jump-host fields of the options, each as one record. */
  datatype Proxy = Proxy(kind: ProxyType, host: string, port: nat, user: Option<string>, password: Option<string>)

  datatype Jump = Jump(host: Option<string>, port: nat, user: Option<string>, key: Option<string>)

  const ClearedProxy := Proxy(NoProxy, "", 0, None, None)
  const ClearedJump := Jump(None, 22, None, None)

  datatype Route = Route(
    tag: string, host: string, port: nat, username: Option<string>, privateKey: Option<string>,
    proxy: Proxy, jump: Jump)

  datatype SessionOptions = SessionOptions(
    protocol: Protocol, host: string, port: nat, username: string, privateKey: Option<string>,
    proxy: Proxy, jump: Jump, routes: seq<Route>)

  /** `Some` of a string that is not blank. */
  predicate Filled(s: Option<string>) {
    s.Some? && Trim(s.value) != ""
  }

  function OrElse<T>(a: Option<T>, b: Option<T>): Option<T> {
    if a.Some? then a else b
  }

  function NonEmpty(s: string): Option<string> {
    if s == "" then None else Some(s)
  }

  /** `has_transport_conflict`: both a proxy and a jump host are requested. */
  predicate HasTransportConflict(o: SessionOptions) {
    o.proxy.kind != NoProxy && Filled(o.jump.host)
  }

  // ---------------------------------------------------------------------------
  // Dialog
  // ---------------------------------------------------------------------------

  predicate SupportsJump(p: Protocol) {
    p == Sftp || p == Scp
  }

  predicate SupportsProxy(p: Protocol) {
    p != Smb && p != Telnet
  }

  datatype Dialog = Dialog(
    protocol: Protocol, host: string, port: int, username: string, privateKey: string,
    jumpEnabled: bool, jumpHost: string, jumpPort: int, jumpUser: string, jumpKey: string,
    proxyType: ProxyType, proxyHost: string, proxyPort: int, proxyUser: string, proxyPassword: string)

  /** A dialog's number as a port: 16 bits of it when it is positive, and otherwise none. */
  ghost predicate PortFrom(n: int, port: nat, none: nat) {
    if n > 0 then port == n % 65536 else port == none
  }

  method JumpFromDialog(d: Dialog) returns (jump: Jump)
    ensures jump.host.Some? <==> (d.protocol == Sftp || d.protocol == Scp) && d.jumpEnabled && Trim(d.jumpHost) != ""
    ensures jump.host.None? ==> jump == Jump(None, 22, None, None)
    ensures jump.host.Some? ==>
              && jump.host.value == Trim(d.jumpHost) && PortFrom(d.jumpPort, jump.port, 22)
              && jump.user == (if d.jumpUser == "" then None else Some(d.jumpUser))
              && jump.key == if Trim(d.jumpKey) == "" then None else Some(Trim(d.jumpKey))
  {
    jump := ClearedJump;
    var jumpHost := Trim(d.jumpHost);
    if SupportsJump(d.protocol) && d.jumpEnabled && jumpHost != "" {
      jump := Jump(Some(jumpHost), if d.jumpPort > 0 then d.jumpPort % 65536 else 22,
                   NonEmpty(d.jumpUser), NonEmpty(Trim(d.jumpKey)));
    }
  }

  method ProxyFromDialog(d: Dialog, useJump: bool) returns (proxy: Proxy)
    ensures proxy.kind == if d.protocol == Smb || d.protocol == Telnet || useJump then NoProxy else d.proxyType
    ensures proxy.kind == NoProxy ==> proxy == Proxy(NoProxy, "", 0, None, None)
    ensures proxy.kind != NoProxy ==>
              && proxy.host == Trim(d.proxyHost)
              && PortFrom(d.proxyPort, proxy.port, if d.proxyType == Socks5 then 1080 else 8080)
              && proxy.user == (if d.proxyUser == "" then None else Some(d.proxyUser))
              && proxy.password == if d.proxyPassword == "" then None else Some(d.proxyPassword)
  {
    proxy := ClearedProxy;
    if SupportsProxy(d.protocol) && d.proxyType != NoProxy && !useJump {
      proxy := Proxy(d.proxyType, Trim(d.proxyHost),
                     if d.proxyPort > 0 then d.proxyPort % 65536 else DefaultProxyPort(d.proxyType),
                     NonEmpty(d.proxyUser), NonEmpty(d.proxyPassword));
    }
    if !SupportsProxy(d.protocol) {
      proxy := ClearedProxy;
    }
  }

  /** The endpoint and the transport of `session_options_from_dialog`: a jump host where the protocol has one and the
      dialog names one, and otherwise the proxy where the protocol has one. */
  method FromDialog(d: Dialog) returns (o: SessionOptions)
    ensures !HasTransportConflict(o)
    ensures o.routes == [] && o.protocol == d.protocol && o.host == Trim(d.host) && o.username == d.username
    ensures 1 <= o.port <= 65535 && (1 <= d.port <= 65535 ==> o.port == d.port) && (d.port < 1 ==> o.port == 1)
    ensures o.privateKey == if Trim(d.privateKey) == "" then None else Some(Trim(d.privateKey))
    ensures Filled(o.jump.host) <==>
            (d.protocol == Sftp || d.protocol == Scp) && d.jumpEnabled && Trim(d.jumpHost) != ""
    ensures o.jump.host.None? ==> o.jump == Jump(None, 22, None, None)
    ensures o.jump.host.Some? ==>
              && o.jump.host.value == Trim(d.jumpHost) && PortFrom(d.jumpPort, o.jump.port, 22)
              && o.jump.user == (if d.jumpUser == "" then None else Some(d.jumpUser))
              && o.jump.key == if Trim(d.jumpKey) == "" then None else Some(Trim(d.jumpKey))
    ensures o.proxy.kind == if d.protocol == Smb || d.protocol == Telnet || Filled(o.jump.host) then NoProxy
                            else d.proxyType
    ensures o.proxy.kind == NoProxy ==> o.proxy == Proxy(NoProxy, "", 0, None, None)
    ensures o.proxy.kind != NoProxy ==>
              && o.proxy.host == Trim(d.proxyHost)
              && PortFrom(d.proxyPort, o.proxy.port, if d.proxyType == Socks5 then 1080 else 8080)
              && o.proxy.user == (if d.proxyUser == "" then None else Some(d.proxyUser))
              && o.proxy.password == if d.proxyPassword == "" then None else Some(d.proxyPassword)
  {
    var port := if d.port < 1 then 1 else if d.port > 65535 then 65535 else d.port;
    var jump := JumpFromDialog(d);
    var proxy := ProxyFromDialog(d, jump.host.Some?);
    FilledWhenTrimmed(jump.host, d.jumpHost);
    o := SessionOptions(d.protocol, Trim(d.host), port, d.username, NonEmpty(Trim(d.privateKey)), proxy, jump, []);
  }

  lemma FilledWhenTrimmed(s: Option<string>, raw: string)
    requires s.Some? ==> s.value == Trim(raw) && s.value != ""
    ensures Filled(s) <==> s.Some?
  {
    TrimmedExactlyWhenFixed(raw);
    TrimmedExactlyWhenFixed(Trim(raw));
  }

  // ---------------------------------------------------------------------------
  // ~/.ssh/config defaults
  // ---------------------------------------------------------------------------

  datatype Resolved = Resolved(
    hostName: Option<string>, port: Option<nat>, user: Option<string>, identities: seq<string>,
    proxyJump: Option<string>)

  /** The user's configuration: what an alias resolves to, and how a ProxyJump value splits into
      user, host and port. */
  datatype SshConfig = SshConfig(
    resolve: string -> Resolved,
    parseJump: string -> (Option<string>, string, Option<nat>))

  function First(xs: seq<string>): Option<string> {
    if xs == [] then None else Some(xs[0])
  }

  /** `apply_resolved_params`. */
  function ApplyResolvedParams(cfg: SshConfig, r: Resolved, o0: SessionOptions, allowJump: bool): (o: SessionOptions) {
    var o1 := if r.hostName.Some? && r.hostName.value != "" then o0.(host := r.hostName.value) else o0;
    var o2 := if Trim(o1.username) == "" && r.user.Some? && r.user.value != "" then o1.(username := r.user.value)
              else o1;
    var o3 := if o2.port == DefaultPort(o2.protocol) && r.port.Some? then o2.(port := r.port.value) else o2;
    var o4 := if o3.privateKey.None? then o3.(privateKey := First(r.identities)) else o3;
    if allowJump && o4.jump.host.None? && o4.proxy.kind == NoProxy && r.proxyJump.Some? && r.proxyJump.value != "" then
      var (user, host, port) := cfg.parseJump(r.proxyJump.value);
      o4.(jump := Jump(Some(host), if port.Some? then port.value else 22, user, o4.jump.key))
    else o4
  }

  /** `apply_ssh_config_defaults_with`. */
  function ApplySshDefaults(cfg: Option<SshConfig>, o0: SessionOptions, allowJump: bool): (o: SessionOptions) {
    if cfg.None? || !SupportsJump(o0.protocol) then o0
    else
      var o := ApplyResolvedParams(cfg.value, cfg.value.resolve(o0.host), o0, allowJump);
      if o.jump.host.None? || o.jump.host.value == "" then o
      else
        var r := cfg.value.resolve(o.jump.host.value);
        o.(jump := Jump(o.jump.host,
                        if o.jump.port == 22 then (if r.port.Some? then r.port.value else 22) else o.jump.port,
                        OrElse(o.jump.user, r.user),
                        OrElse(o.jump.key, First(r.identities))))
  }

  /** What the configuration says about a host, where it is asked at all. */
  function Consulted(cfg: Option<SshConfig>, protocol: Protocol, host: string): (r: Resolved) {
    if cfg.Some? && (protocol == Sftp || protocol == Scp) then cfg.value.resolve(host)
    else Resolved(None, None, None, [], None)
  }

  /** The options' own jump host, or else the configuration's, where that may be used and nothing else is set. */
  ghost predicate JumpFilled(cfg: Option<SshConfig>, o: SessionOptions, allowJump: bool, jump: Jump) {
    var proxyJump := Consulted(cfg, o.protocol, o.host).proxyJump;
    if allowJump && o.jump.host.None? && o.proxy.kind == NoProxy && proxyJump.Some? && proxyJump.value != "" then
      && cfg.Some?
      && var (user, host, port) := cfg.value.parseJump(proxyJump.value);
         jump.host == Some(host) && jump.user == user && jump.port == (if port.Some? then port.value else 22)
         && jump.key == o.jump.key
    else jump == o.jump
  }

  /** The jump host's own port, user and key, where the options leave them open. */
  ghost predicate JumpCompleted(cfg: Option<SshConfig>, protocol: Protocol, jump: Jump, after: Jump) {
    && after.host == jump.host
    && (jump.host.None? || jump.host.value == "" ==> after == jump)
    && (jump.host.Some? && jump.host.value != "" ==>
          var r := Consulted(cfg, protocol, jump.host.value);
          && after.port == (if jump.port == 22 && r.port.Some? then r.port.value else jump.port)
          && after.user == (if jump.user.None? then r.user else jump.user)
          && after.key == if jump.key.None? && r.identities != [] then Some(r.identities[0]) else jump.key)
  }

  /** The configuration names the host's true name, and fills what the options leave open; it changes nothing that
      they set. */
  ghost predicate FillsGaps(cfg: Option<SshConfig>, o: SessionOptions, d: SessionOptions, allowJump: bool) {
    var r := Consulted(cfg, o.protocol, o.host);
    && d.protocol == o.protocol && d.routes == o.routes && d.proxy == o.proxy
    && d.host == (if r.hostName.Some? && r.hostName.value != "" then r.hostName.value else o.host)
    && d.username == (if Trim(o.username) == "" && r.user.Some? && r.user.value != "" then r.user.value
                      else o.username)
    && d.port == (if o.port == DefaultPort(o.protocol) && r.port.Some? then r.port.value else o.port)
    && d.privateKey == (if o.privateKey.None? && r.identities != [] then Some(r.identities[0]) else o.privateKey)
    && exists jump :: JumpFilled(cfg, o, allowJump, jump) && JumpCompleted(cfg, o.protocol, jump, d.jump)
  }

  lemma DefaultsFillGaps(cfg: Option<SshConfig>, o: SessionOptions, allowJump: bool)
    ensures FillsGaps(cfg, o, ApplySshDefaults(cfg, o, allowJump), allowJump)
  {
    if cfg.None? || !SupportsJump(o.protocol) {
      assert JumpFilled(cfg, o, allowJump, o.jump) && JumpCompleted(cfg, o.protocol, o.jump, o.jump);
    } else {
      var mid := ApplyResolvedParams(cfg.value, cfg.value.resolve(o.host), o, allowJump);
      var d := ApplySshDefaults(cfg, o, allowJump);
      assert JumpFilled(cfg, o, allowJump, mid.jump) && JumpCompleted(cfg, o.protocol, mid.jump, d.jump);
    }
  }

  /** A configuration that says nothing about a host changes nothing. */
  predicate Silent(cfg: Option<SshConfig>, protocol: Protocol, host: string) {
    Consulted(cfg, protocol, host) == Resolved(None, None, None, [], None)
  }

  /** What the user set wins over the configuration, apart from the host's name. */
  lemma SetValuesWin(cfg: Option<SshConfig>, o: SessionOptions, d: SessionOptions, allowJump: bool)
    requires FillsGaps(cfg, o, d, allowJump)
    ensures Trim(o.username) != "" ==> d.username == o.username
    ensures o.port != DefaultPort(o.protocol) ==> d.port == o.port
    ensures o.privateKey.Some? ==> d.privateKey == o.privateKey
    ensures o.jump.host.Some? || !allowJump ==> d.jump.host == o.jump.host
    ensures o.jump.host.Some? && o.jump.port != 22 ==> d.jump.port == o.jump.port
    ensures o.jump.host.Some? && o.jump.user.Some? ==> d.jump.user == o.jump.user
    ensures o.jump.key.Some? ==> d.jump.key == o.jump.key
  {
    var jump :| JumpFilled(cfg, o, allowJump, jump) && JumpCompleted(cfg, o.protocol, jump, d.jump);
  }

  /** A configuration that says nothing about the host and the jump host changes nothing. */
  lemma SilentChangesNothing(cfg: Option<SshConfig>, o: SessionOptions, d: SessionOptions, allowJump: bool)
    requires FillsGaps(cfg, o, d, allowJump) && Silent(cfg, o.protocol, o.host)
    requires o.jump.host.Some? ==> Silent(cfg, o.protocol, o.jump.host.value)
    ensures d == o
  {
    var jump :| JumpFilled(cfg, o, allowJump, jump) && JumpCompleted(cfg, o.protocol, jump, d.jump);
    assert jump == o.jump;
  }

  /** The defaults never create and never remove a conflict, and leave a set transport alone. */
  lemma DefaultsKeepTransport(cfg: Option<SshConfig>, o: SessionOptions, allowJump: bool)
    ensures var d := ApplySshDefaults(cfg, o, allowJump);
            && (HasTransportConflict(d) <==> HasTransportConflict(o))
            && d.proxy == o.proxy
            && (!allowJump || o.jump.host.Some? || o.proxy.kind != NoProxy ==> d.jump.host == o.jump.host)
  {
  }

  // ---------------------------------------------------------------------------
  // Candidates
  // ---------------------------------------------------------------------------

  datatype Candidate = Candidate(tag: string, options: SessionOptions)

  predicate UsesJump(r: Route) {
    Filled(r.jump.host)
  }

  predicate UsesProxy(r: Route) {
    !UsesJump(r) && r.proxy.kind != NoProxy && Trim(r.proxy.host) != ""
  }

  /** The options of one route before the ssh defaults: the site's, with the route's own endpoint and
      the route's own transport. */
  function RouteOptions(site: SessionOptions, r: Route): (o: SessionOptions) {
    var o1 := site.(routes := [], host := if Trim(r.host) == "" then Trim(site.host) else Trim(r.host),
                    port := if r.port != 0 then r.port else site.port);
    var o2 := if Filled(r.username) then o1.(username := Trim(r.username.value)) else o1;
    var o3 := if Filled(r.privateKey) then o2.(privateKey := Some(Trim(r.privateKey.value))) else o2;
    if UsesJump(r) then
      o3.(proxy := ClearedProxy,
          jump := Jump(r.jump.host, r.jump.port, OrElse(r.jump.user, site.jump.user),
                       OrElse(r.jump.key, site.jump.key)))
    else if UsesProxy(r) then
      o3.(jump := ClearedJump,
          proxy := Proxy(r.proxy.kind, Trim(r.proxy.host),
                         if r.proxy.port != 0 then r.proxy.port else DefaultProxyPort(r.proxy.kind),
                         OrElse(r.proxy.user, site.proxy.user), site.proxy.password))
    else o3.(proxy := ClearedProxy, jump := ClearedJump)
  }

  /** The options a route stands for: its own endpoint and credentials, or the site's where it leaves them open; and
      its own transport, of which only the credentials may come from the site. */
  ghost predicate AsRouteSays(site: SessionOptions, r: Route, o: SessionOptions) {
    && o.protocol == site.protocol && o.routes == []
    && o.host == (if Trim(r.host) != "" then Trim(r.host) else Trim(site.host))
    && o.port == (if r.port > 0 then r.port else site.port)
    && o.username == (if r.username.Some? && Trim(r.username.value) != "" then Trim(r.username.value)
                      else site.username)
    && o.privateKey == (if r.privateKey.Some? && Trim(r.privateKey.value) != "" then Some(Trim(r.privateKey.value))
                        else site.privateKey)
    && if r.jump.host.Some? && Trim(r.jump.host.value) != "" then
         && o.proxy == Proxy(NoProxy, "", 0, None, None)
         && o.jump.host == r.jump.host && o.jump.port == r.jump.port
         && o.jump.user == (if r.jump.user.Some? then r.jump.user else site.jump.user)
         && o.jump.key == (if r.jump.key.Some? then r.jump.key else site.jump.key)
       else if r.proxy.kind != NoProxy && Trim(r.proxy.host) != "" then
         && o.jump == Jump(None, 22, None, None)
         && o.proxy.kind == r.proxy.kind && o.proxy.host == Trim(r.proxy.host)
         && o.proxy.port == (if r.proxy.port > 0 then r.proxy.port else if r.proxy.kind == Socks5 then 1080 else 8080)
         && o.proxy.user == (if r.proxy.user.Some? then r.proxy.user else site.proxy.user)
         && o.proxy.password == site.proxy.password
       else o.jump == Jump(None, 22, None, None) && o.proxy == Proxy(NoProxy, "", 0, None, None)
  }

  lemma RouteOptionsAsSaid(site: SessionOptions, r: Route)
    ensures AsRouteSays(site, r, RouteOptions(site, r))
  {
  }

  /** A route's candidate: what the route says, completed by the configuration, which may give it a jump host's port,
      user and key but no jump host. */
  ghost predicate StandsForRoute(cfg: Option<SshConfig>, site: SessionOptions, r: Route, o: SessionOptions) {
    exists said :: AsRouteSays(site, r, said)
                   && FillsGaps(cfg, said, o, r.jump.host.Some? && Trim(r.jump.host.value) != "")
  }

  function RouteTag(r: Route, index: nat): (t: string) {
    if Trim(r.tag) == "" then "route " + Decimal(index + 1) else Trim(r.tag)
  }

  function RouteCandidate(cfg: Option<SshConfig>, site: SessionOptions, index: nat): (c: Candidate)
    requires index < |site.routes|
  {
    var r := site.routes[index];
    Candidate(RouteTag(r, index), ApplySshDefaults(cfg, RouteOptions(site, r), UsesJump(r)))
  }

  /** A candidate that opens a connection to its host itself. */
  predicate Direct(o: SessionOptions) {
    !Filled(o.jump.host) && (o.proxy.kind == NoProxy || Trim(o.proxy.host) == "")
  }

  /** A route's candidate uses exactly the transport the route asks for, whatever the site uses and
      whatever the ssh config says: never both, and a direct route stays direct. */
  lemma RouteOwnsItsTransport(cfg: Option<SshConfig>, site: SessionOptions, index: nat)
    requires index < |site.routes|
    ensures var r, o := site.routes[index], RouteCandidate(cfg, site, index).options;
            && !HasTransportConflict(o)
            && (Filled(o.jump.host) <==> UsesJump(r)) && (UsesJump(r) ==> o.jump.host == r.jump.host)
            && (o.proxy.kind == if UsesProxy(r) then r.proxy.kind else NoProxy)
            && (UsesProxy(r) ==> o.proxy.host == Trim(r.proxy.host))
            && (Direct(o) <==> !UsesJump(r) && !UsesProxy(r))
  {
    var r := site.routes[index];
    DefaultsKeepTransport(cfg, RouteOptions(site, r), UsesJump(r));
    TrimmedExactlyWhenFixed(r.proxy.host);
    TrimmedExactlyWhenFixed(Trim(r.proxy.host));
  }

  lemma CandidateStandsForRoute(cfg: Option<SshConfig>, site: SessionOptions, index: nat)
    requires index < |site.routes|
    ensures StandsForRoute(cfg, site, site.routes[index], RouteCandidate(cfg, site, index).options)
  {
    var r := site.routes[index];
    RouteOptionsAsSaid(site, r);
    DefaultsFillGaps(cfg, RouteOptions(site, r), UsesJump(r));
  }

  function PrimaryCandidate(cfg: Option<SshConfig>, site: SessionOptions): (c: Candidate) {
    Candidate("", ApplySshDefaults(cfg, site.(routes := []), true))
  }

  // ---------------------------------------------------------------------------
  // The synthetic LAN candidate
  // ---------------------------------------------------------------------------

  function EffectivePort(o: SessionOptions): nat {
    if o.port == 0 then 22 else o.port
  }

  predicate SameEndpoint(o: SessionOptions, p: SessionOptions) {
    Trim(o.host) == Trim(p.host) && EffectivePort(o) == EffectivePort(p)
  }

  /** When a LAN candidate is due: the primary tunnels, its host is a LAN address, and no candidate
      reaches that endpoint directly. */
  predicate LanIsDue(isLan: string -> bool, cs: seq<Candidate>) {
    && cs != [] && !Direct(cs[0].options) && isLan(Trim(cs[0].options.host))
    && forall i :: 0 <= i < |cs| ==> !(SameEndpoint(cs[i].options, cs[0].options) && Direct(cs[i].options))
  }

  predicate IsLanTag(t: string) {
    EqIgnoreCase(t, "LAN")
  }

  function LanCandidate(cs: seq<Candidate>): (c: Candidate)
    requires cs != []
  {
    Candidate(if exists i :: 0 <= i < |cs| && IsLanTag(cs[i].tag) then "LAN direct" else "LAN",
              cs[0].options.(proxy := ClearedProxy, jump := ClearedJump))
  }

  /** The options open a connection of their own to the host and port of `p`, of which 0 stands for 22. */
  ghost predicate ReachesDirectly(o: SessionOptions, p: SessionOptions) {
    && Trim(o.host) == Trim(p.host)
    && (o.port == p.port || {o.port, p.port} == {0, 22})
    && (o.jump.host.None? || Trim(o.jump.host.value) == "") && (o.proxy.kind == NoProxy || Trim(o.proxy.host) == "")
  }

  /** It is due exactly when the primary has a jump host or a proxy, its host is a LAN address, and no candidate
      reaches the primary's endpoint directly. */
  lemma LanIsDueExactlyWhen(isLan: string -> bool, cs: seq<Candidate>)
    requires cs != []
    ensures var p := cs[0].options;
            LanIsDue(isLan, cs) <==>
            && ((p.jump.host.Some? && Trim(p.jump.host.value) != "")
                || (p.proxy.kind != NoProxy && Trim(p.proxy.host) != ""))
            && isLan(Trim(p.host))
            && forall i :: 0 <= i < |cs| ==> !ReachesDirectly(cs[i].options, p)
  {
    forall i | 0 <= i < |cs|
      ensures ReachesDirectly(cs[i].options, cs[0].options) <==>
              SameEndpoint(cs[i].options, cs[0].options) && Direct(cs[i].options)
    {
      PortsOfOneEndpoint(cs[i].options.port, cs[0].options.port);
    }
  }

  lemma PortsOfOneEndpoint(a: nat, b: nat)
    ensures (if a == 0 then 22 else a) == (if b == 0 then 22 else b) <==> a == b || {a, b} == {0, 22}
  {
    if {a, b} == {0, 22} {
      assert a in {0, 22} && b in {0, 22} && 0 in {a, b} && 22 in {a, b};
    }
  }

  /** The LAN candidate is the primary without its transport, under a name that is not taken. */
  lemma LanCandidateIs(cs: seq<Candidate>)
    requires cs != []
    ensures var lan, p := LanCandidate(cs), cs[0].options;
            && lan.options == p.(proxy := Proxy(NoProxy, "", 0, None, None), jump := Jump(None, 22, None, None))
            && lan.tag == (if exists i :: 0 <= i < |cs| && EqIgnoreCase(cs[i].tag, "LAN") then "LAN direct" else "LAN")
  {
    if i :| 0 <= i < |cs| && EqIgnoreCase(cs[i].tag, "LAN") {
      assert IsLanTag(cs[i].tag);
    }
  }

  /** `maybe_inject_direct_lan`. */
  method InjectLan(isLan: string -> bool, before: seq<Candidate>) returns (cs: seq<Candidate>)
    ensures cs == if LanIsDue(isLan, before) then before + [LanCandidate(before)] else before
  {
    cs := before;
    if cs == [] {
      return;
    }
    var primary := cs[0].options;
    var hasTunnel := Filled(primary.jump.host) || (primary.proxy.kind != NoProxy && Trim(primary.proxy.host) != "");
    if !hasTunnel || !isLan(Trim(primary.host)) {
      return;
    }
    var i := 0;
    while i < |cs|
      invariant 0 <= i <= |cs|
      invariant forall j :: 0 <= j < i ==> !(SameEndpoint(cs[j].options, primary) && Direct(cs[j].options))
    {
      if SameEndpoint(cs[i].options, primary) && Direct(cs[i].options) {
        return;
      }
      i := i + 1;
    }
    cs := cs + [LanCandidate(cs)];
  }

  /** Once injected, the LAN candidate answers the very check that asked for it: injecting twice
      adds nothing more. It is direct, conflict free, and reaches the primary's endpoint. */
  lemma LanInjectionIsIdempotent(isLan: string -> bool, cs: seq<Candidate>)
    requires LanIsDue(isLan, cs)
    ensures !LanIsDue(isLan, cs + [LanCandidate(cs)])
    ensures var lan := LanCandidate(cs).options;
            Direct(lan) && !HasTransportConflict(lan) && SameEndpoint(lan, cs[0].options)
  {
    var after := cs + [LanCandidate(cs)];
    assert after[0] == cs[0] && after[|cs|] == LanCandidate(cs);
  }

  /** The list starts with `first` and continues with the first n values of `next`. */
  ghost predicate Enumerates(own: seq<Candidate>, first: Candidate, next: nat -> Candidate, n: nat) {
    |own| == n + 1 && own[0] == first && forall j: nat :: j < n ==> own[j + 1] == next(j)
  }

  lemma EnumeratesOneMore(own: seq<Candidate>, first: Candidate, next: nat -> Candidate, n: nat, c: Candidate)
    requires Enumerates(own, first, next, n) && c == next(n)
    ensures Enumerates(own + [c], first, next, n + 1)
  {
  }

  ghost function RouteCandidates(cfg: Option<SshConfig>, site: SessionOptions): nat -> Candidate {
    (i: nat) => if i < |site.routes| then RouteCandidate(cfg, site, i) else PrimaryCandidate(cfg, site)
  }

  /** The candidates for the site's own endpoints: the primary, then the routes in order. */
  ghost predicate OwnEndpoints(cfg: Option<SshConfig>, site: SessionOptions, own: seq<Candidate>) {
    Enumerates(own, PrimaryCandidate(cfg, site), RouteCandidates(cfg, site), |site.routes|)
  }

  lemma PrimaryConflictsExactlyWhenSiteDoes(cfg: Option<SshConfig>, site: SessionOptions)
    ensures HasTransportConflict(PrimaryCandidate(cfg, site).options) <==> HasTransportConflict(site)
  {
    DefaultsKeepTransport(cfg, site.(routes := []), true);
  }

  lemma OnlyThePrimaryConflicts(cfg: Option<SshConfig>, site: SessionOptions, own: seq<Candidate>, i: nat)
    requires OwnEndpoints(cfg, site, own) && i < |own|
    ensures HasTransportConflict(own[i].options) ==> i == 0 && HasTransportConflict(site)
  {
    if i == 0 {
      PrimaryConflictsExactlyWhenSiteDoes(cfg, site);
    } else {
      var j := i - 1;
      RouteOwnsItsTransport(cfg, site, j);
      assert own[j + 1] == RouteCandidates(cfg, site)(j);
    }
  }

  method OwnCandidates(cfg: Option<SshConfig>, site: SessionOptions) returns (own: seq<Candidate>)
    ensures OwnEndpoints(cfg, site, own)
  {
    ghost var first, next := PrimaryCandidate(cfg, site), RouteCandidates(cfg, site);
    own := [PrimaryCandidate(cfg, site)];
    var i := 0;
    while i < |site.routes|
      invariant 0 <= i <= |site.routes| && Enumerates(own, first, next, i)
    {
      var c := RouteCandidate(cfg, site, i);
      EnumeratesOneMore(own, first, next, i, c);
      own := own + [c];
      i := i + 1;
    }
  }

  /** No two candidates have the same tag: the cache tells them apart. */
  ghost predicate TagsDistinct(cs: seq<Candidate>) {
    forall i, j :: 0 <= i < j < |cs| ==> cs[i].tag != cs[j].tag
  }

  ghost predicate RouteTagsDistinct(routes: seq<Route>) {
    forall i: nat, j: nat :: i < j < |routes| ==> RouteTag(routes[i], i) != RouteTag(routes[j], j)
  }

  ghost predicate NamesLan(routes: seq<Route>) {
    exists i: nat :: i < |routes| && IsLanTag(RouteTag(routes[i], i))
  }

  ghost predicate NamesLanDirect(routes: seq<Route>) {
    exists i: nat :: i < |routes| && RouteTag(routes[i], i) == "LAN direct"
  }

  lemma OwnTags(cfg: Option<SshConfig>, site: SessionOptions, own: seq<Candidate>, i: nat)
    requires OwnEndpoints(cfg, site, own) && i < |own|
    ensures own[i].tag == if i == 0 then "" else RouteTag(site.routes[i - 1], i - 1)
    ensures i > 0 ==> own[i].tag != ""
  {
    if i > 0 {
      assert own[i - 1 + 1] == RouteCandidates(cfg, site)(i - 1);
    }
  }

  /** Whether some candidate so far is called LAN, in any case. */
  ghost predicate LanTaken(own: seq<Candidate>) {
    exists i :: 0 <= i < |own| && IsLanTag(own[i].tag)
  }

  lemma LanTakenExactlyWhen(cfg: Option<SshConfig>, site: SessionOptions, own: seq<Candidate>)
    requires OwnEndpoints(cfg, site, own)
    ensures LanTaken(own) <==> NamesLan(site.routes)
    ensures (exists i :: 0 <= i < |own| && own[i].tag == "LAN direct") <==> NamesLanDirect(site.routes)
    ensures TagsDistinct(own) <==> RouteTagsDistinct(site.routes)
  {
    forall i: nat | i < |own|
      ensures own[i].tag == (if i == 0 then "" else RouteTag(site.routes[i - 1], i - 1)) && (i > 0 ==> own[i].tag != "")
    {
      OwnTags(cfg, site, own, i);
    }
    forall i: nat | i < |site.routes| ensures own[i + 1].tag == RouteTag(site.routes[i], i) {
    }
  }

  /** The candidates' tags are distinct exactly when the routes' own are, blank ones counted as the
      generated "route 1", "route 2" and so on, and no LAN candidate is due that has to yield the name
      "LAN" while "LAN direct" is taken too. */
  lemma TagsDistinctExactlyWhen(cfg: Option<SshConfig>, isLan: string -> bool, site: SessionOptions,
                                own: seq<Candidate>)
    requires OwnEndpoints(cfg, site, own)
    ensures var cs := if LanIsDue(isLan, own) then own + [LanCandidate(own)] else own;
            TagsDistinct(cs) <==>
            && RouteTagsDistinct(site.routes)
            && !(LanIsDue(isLan, own) && NamesLan(site.routes) && NamesLanDirect(site.routes))
  {
    LanTakenExactlyWhen(cfg, site, own);
    if LanIsDue(isLan, own) {
      var lan := LanCandidate(own);
      var cs := own + [lan];
      assert lan.tag == if LanTaken(own) then "LAN direct" else "LAN";
      assert TagsDistinct(cs) ==> TagsDistinct(own) by {
        assert forall i :: 0 <= i < |own| ==> cs[i] == own[i];
      }
      assert IsLanTag("LAN");
      assert cs[|own|] == lan;
      if i :| 0 <= i < |own| && own[i].tag == lan.tag {
        assert cs[i].tag == cs[|own|].tag;
      }
    }
  }

  /** The site's own candidates: first the site itself under no tag, completed by the configuration, then each
      route under its own tag or else a numbered one. */
  ghost predicate SiteCandidates(cfg: Option<SshConfig>, site: SessionOptions, own: seq<Candidate>) {
    && |own| == |site.routes| + 1 && own[0].tag == "" && FillsGaps(cfg, site.(routes := []), own[0].options, true)
    && forall i: nat :: i < |site.routes| ==> StandsForRouteAt(cfg, site, own, i)
  }

  ghost predicate StandsForRouteAt(cfg: Option<SshConfig>, site: SessionOptions, own: seq<Candidate>, i: nat)
    requires i < |site.routes| && |own| == |site.routes| + 1
  {
    && StandsForRoute(cfg, site, site.routes[i], own[i + 1].options)
    && own[i + 1].tag == if Trim(site.routes[i].tag) == "" then "route " + Decimal(i + 1) else Trim(site.routes[i].tag)
  }

  lemma OwnAreSites(cfg: Option<SshConfig>, site: SessionOptions, own: seq<Candidate>)
    requires OwnEndpoints(cfg, site, own)
    ensures SiteCandidates(cfg, site, own)
  {
    DefaultsFillGaps(cfg, site.(routes := []), true);
    forall i: nat | i < |site.routes| ensures StandsForRouteAt(cfg, site, own, i) {
      assert own[i + 1] == RouteCandidates(cfg, site)(i);
      CandidateStandsForRoute(cfg, site, i);
    }
  }

  /** Where the configuration says nothing about the route's hosts, its candidate has the route's endpoint and
      credentials, or the site's where the route leaves them open. */
  lemma SilentRoute(cfg: Option<SshConfig>, site: SessionOptions, own: seq<Candidate>, i: nat)
    requires SiteCandidates(cfg, site, own) && i < |site.routes|
    requires var r := site.routes[i];
             && Silent(cfg, site.protocol, if Trim(r.host) != "" then Trim(r.host) else Trim(site.host))
             && (r.jump.host.Some? ==> Silent(cfg, site.protocol, r.jump.host.value))
    ensures AsRouteSays(site, site.routes[i], own[i + 1].options)
  {
    var r := site.routes[i];
    assert StandsForRouteAt(cfg, site, own, i);
    var said :| AsRouteSays(site, r, said)
                && FillsGaps(cfg, said, own[i + 1].options, r.jump.host.Some? && Trim(r.jump.host.value) != "");
    SilentChangesNothing(cfg, said, own[i + 1].options, r.jump.host.Some? && Trim(r.jump.host.value) != "");
  }

  /** `build_candidates`: the site's own endpoints and at most one LAN candidate. Only the primary can
      ask for both a proxy and a jump host, and only if the site itself does. */
  method BuildCandidates(cfg: Option<SshConfig>, isLan: string -> bool, site: SessionOptions)
    returns (cs: seq<Candidate>)
    ensures |cs| > |site.routes| && OwnEndpoints(cfg, site, cs[..|site.routes| + 1])
    ensures var own := cs[..|site.routes| + 1];
            cs == if LanIsDue(isLan, own) then own + [LanCandidate(own)] else own
    ensures SiteCandidates(cfg, site, cs[..|site.routes| + 1])
    ensures forall i :: 0 <= i < |cs| && HasTransportConflict(cs[i].options) ==> i == 0 && HasTransportConflict(site)
    ensures !LanIsDue(isLan, cs)
    ensures TagsDistinct(cs) <==>
            && RouteTagsDistinct(site.routes)
            && !(LanIsDue(isLan, cs[..|site.routes| + 1]) && NamesLan(site.routes) && NamesLanDirect(site.routes))
  {
    var own := OwnCandidates(cfg, site);
    cs := InjectLan(isLan, own);
    BuiltFrom(cfg, isLan, site, own, cs);
  }

  lemma BuiltFrom(cfg: Option<SshConfig>, isLan: string -> bool, site: SessionOptions, own: seq<Candidate>,
                  cs: seq<Candidate>)
    requires OwnEndpoints(cfg, site, own) && cs == if LanIsDue(isLan, own) then own + [LanCandidate(own)] else own
    ensures |own| == |site.routes| + 1 && |own| <= |cs| && cs[..|own|] == own && SiteCandidates(cfg, site, own)
    ensures forall i :: 0 <= i < |cs| && HasTransportConflict(cs[i].options) ==> i == 0 && HasTransportConflict(site)
    ensures !LanIsDue(isLan, cs)
    ensures TagsDistinct(cs) <==>
            && RouteTagsDistinct(site.routes)
            && !(LanIsDue(isLan, own) && NamesLan(site.routes) && NamesLanDirect(site.routes))
  {
    TagsDistinctExactlyWhen(cfg, isLan, site, own);
    OwnAreSites(cfg, site, own);
    if LanIsDue(isLan, own) {
      LanInjectionIsIdempotent(isLan, own);
    }
    forall i | 0 <= i < |own| ensures HasTransportConflict(own[i].options) ==> i == 0 && HasTransportConflict(site) {
      OnlyThePrimaryConflicts(cfg, site, own, i);
    }
  }

  /** From the dialog to the connector: no candidate ever asks for both a proxy and a jump host. */
  method CandidatesFromDialog(d: Dialog, cfg: Option<SshConfig>, isLan: string -> bool, routes: seq<Route>)
    returns (cs: seq<Candidate>)
    ensures forall i :: 0 <= i < |cs| ==> !HasTransportConflict(cs[i].options)
  {
    var o := FromDialog(d);
    DefaultsKeepTransport(cfg, o, true);
    o := ApplySshDefaults(cfg, o, true).(routes := routes);
    cs := BuildCandidates(cfg, isLan, o);
  }

  // ---------------------------------------------------------------------------
  // The connector's own ~/.ssh/config pass
  // ---------------------------------------------------------------------------

  /** `apply_resolved` of the core crate, which `run_connect` calls on every candidate. Unlike the
      pass above it attaches a ProxyJump whatever the proxy, and to routes that are meant to be direct. */
  function ApplyResolved(cfg: SshConfig, r: Resolved, o0: SessionOptions): (o: SessionOptions) {
    var o1 := if Filled(r.hostName) then o0.(host := Trim(r.hostName.value)) else o0;
    var o2 := if r.port.Some? && o1.port == DefaultPort(o1.protocol) then o1.(port := r.port.value) else o1;
    var o3 := if Trim(o2.username) == "" && Filled(r.user) then o2.(username := Trim(r.user.value)) else o2;
    var o4 := if !Filled(o3.privateKey) && r.identities != [] && Trim(r.identities[0]) != ""
              then o3.(privateKey := Some(r.identities[0])) else o3;
    if !Filled(o4.jump.host) && Filled(r.proxyJump) && cfg.parseJump(Trim(r.proxyJump.value)).1 != "" then
      var (user, host, port) := cfg.parseJump(Trim(r.proxyJump.value));
      o4.(jump := Jump(Some(host), if port.Some? then port.value else o4.jump.port,
                       if Filled(o4.jump.user) then o4.jump.user else user, o4.jump.key))
    else o4
  }

  /** `apply_user_config` of the core crate. */
  function ApplyUserConfig(cfg: Option<SshConfig>, o: SessionOptions): (o': SessionOptions) {
    if cfg.None? || !SupportsJump(o.protocol) || Trim(o.host) == "" then o
    else ApplyResolved(cfg.value, cfg.value.resolve(Trim(o.host)), o)
  }

  /** What the connector's pass makes of the options: again the host's true name and what they leave open, but a blank
      value counts as left open. */
  lemma ConnectorEndpoint(cfg: SshConfig, r: Resolved, o: SessionOptions)
    ensures var d := ApplyResolved(cfg, r, o);
            && d.protocol == o.protocol && d.routes == o.routes && d.proxy == o.proxy
            && d.host == (if r.hostName.Some? && Trim(r.hostName.value) != "" then Trim(r.hostName.value) else o.host)
            && d.port == (if o.port == DefaultPort(o.protocol) && r.port.Some? then r.port.value else o.port)
  {
  }

  lemma ConnectorCredentials(cfg: SshConfig, r: Resolved, o: SessionOptions)
    ensures var d := ApplyResolved(cfg, r, o);
            && d.username == (if Trim(o.username) == "" && r.user.Some? && Trim(r.user.value) != ""
                              then Trim(r.user.value) else o.username)
            && d.privateKey == (if (o.privateKey.None? || Trim(o.privateKey.value) == "")
                                   && r.identities != [] && Trim(r.identities[0]) != "" then Some(r.identities[0])
                                else o.privateKey)
  {
  }

  /** A ProxyJump is taken whatever the proxy. */
  lemma ConnectorJump(cfg: SshConfig, r: Resolved, o: SessionOptions)
    ensures var d := ApplyResolved(cfg, r, o);
            if (o.jump.host.None? || Trim(o.jump.host.value) == "")
               && r.proxyJump.Some? && Trim(r.proxyJump.value) != ""
               && cfg.parseJump(Trim(r.proxyJump.value)).1 != "" then
              var (user, host, port) := cfg.parseJump(Trim(r.proxyJump.value));
              && d.jump.host == Some(host) && d.jump.port == (if port.Some? then port.value else o.jump.port)
              && d.jump.user == (if o.jump.user.Some? && Trim(o.jump.user.value) != "" then o.jump.user else user)
              && d.jump.key == o.jump.key
            else d.jump == o.jump
  {
  }

  /** What a caller can look up before connecting: does the configuration name a jump host for the
      candidate's host? */
  predicate ConfigJumps(cfg: Option<SshConfig>, o: SessionOptions) {
    && cfg.Some? && SupportsJump(o.protocol) && Trim(o.host) != ""
    && var jump := cfg.value.resolve(Trim(o.host)).proxyJump;
       Filled(jump) && Trim(cfg.value.parseJump(Trim(jump.value)).1) != ""
  }

  /** A direct candidate is still direct when it reaches the network exactly when the configuration
      has no ProxyJump for its host. */
  lemma DirectStaysDirectExactlyWhen(cfg: Option<SshConfig>, o: SessionOptions)
    requires Direct(o)
    ensures Direct(ApplyUserConfig(cfg, o)) <==> !ConfigJumps(cfg, o)
  {
    TrimmedExactlyWhenFixed("");
  }

  /** A conflict-free candidate is conflict free on the network exactly when it uses no proxy or the
      configuration has no ProxyJump for its host. */
  lemma ConnectorConflictsExactlyWhen(cfg: Option<SshConfig>, o: SessionOptions)
    requires !HasTransportConflict(o)
    ensures HasTransportConflict(ApplyUserConfig(cfg, o)) <==> o.proxy.kind != NoProxy && ConfigJumps(cfg, o)
  {
    TrimmedExactlyWhenFixed("");
  }

  /** The failing case happens: a LAN route built as direct goes out through the bastion. */
  lemma LanRouteTunnelledExample()
    ensures exists cfg: Option<SshConfig>, site: SessionOptions ::
              && |site.routes| == 1
              && Direct(RouteCandidate(cfg, site, 0).options)
              && !Direct(ApplyUserConfig(cfg, RouteCandidate(cfg, site, 0).options))
  {
    var resolved := Resolved(None, None, None, [], Some("b"));
    var cfg := Some(SshConfig(h => resolved, s => (None, "b", None)));
    var lan := Route("", "l", 0, None, None, ClearedProxy, ClearedJump);
    var site := SessionOptions(Sftp, "h", 22, "u", None, ClearedProxy, Jump(Some("b"), 22, None, None), [lan]);
    TrimmedExactlyWhenFixed("l");
    TrimmedExactlyWhenFixed("b");
    RouteOwnsItsTransport(cfg, site, 0);
    assert RouteOptions(site, lan).host == "l";
    var o := RouteCandidate(cfg, site, 0).options;
    assert o.host == "l" && o.protocol == Sftp;
    DirectStaysDirectExactlyWhen(cfg, o);
  }
}
