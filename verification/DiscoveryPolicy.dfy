/** How a remote configuration may change active discovery, and how far the local policy bounds it
    (internal/sources/runtime_config.go, internal/config/config.go). */
module DiscoveryPolicy {
  import opened Optional
  import opened Ipv4
  import opened Discovery

  datatype Config = Config(
    enabled: bool, allowPublic: bool, every: int, maxHosts: int, rateLimit: int, timeout: int, cidrs: seq<Cidr>)

  /** A comma-separated piece of a list of ranges. */
  datatype Piece = Blank | Malformed | Range(c: Cidr)

  /** The remote module settings; the entries of `cidrs` are not blank, but their pieces may be. */
  datatype Remote = Remote(
    enabled: Option<bool>, allowPublic: Option<bool>, every: Option<int>,
    maxHosts: Option<int>, rateLimit: Option<int>, timeout: Option<int>, cidrs: seq<seq<Piece>>)

  function Joined(vals: seq<seq<Piece>>): seq<Piece> {
    if vals == [] then [] else vals[0] + Joined(vals[1..])
  }

  /** `ParseStrictCIDRs`: blank pieces are skipped, malformed ones refuse the list. */
  function ParseStrict(pieces: seq<Piece>): Option<seq<Cidr>> {
    if pieces == [] then Some([])
    else if pieces[0].Malformed? then None
    else
      var rest := ParseStrict(pieces[1..]);
      if rest.None? || pieces[0].Blank? then rest else Some([pieces[0].c] + rest.value)
  }

  /** `ValidateActiveDiscoveryCIDRs`. */
  function Validate(pieces: seq<Piece>, allowPublic: bool): Option<seq<Cidr>> {
    var parsed := ParseStrict(pieces);
    if && parsed.Some? && !allowPublic
       && exists i :: 0 <= i < |parsed.value| && !parsed.value[i].Absent? && !IsPrivate(parsed.value[i])
    then None else parsed
  }

  /** `cidrsWithin`. */
  predicate CidrsWithin(requested: seq<Cidr>, allowed: seq<Cidr>) {
    forall i :: 0 <= i < |requested| ==> WithinSome(requested[i], allowed)
  }

  /** A positive remote value counts only if it does not exceed a positive local one. */
  function Lowered(local: int, remote: Option<int>): int {
    if remote.Some? && remote.value > 0 && (local <= 0 || remote.value <= local) then remote.value else local
  }

  /** `TopologyDiscovery`; `None` is an error. */
  function Discovered(local: Config, remote: Option<Remote>): Option<Config> {
    if remote.None? then Some(local)
    else
      var r := remote.value;
      var cfg := local.(
        enabled := local.enabled && (r.enabled.None? || r.enabled.value),
        allowPublic := local.allowPublic && (r.allowPublic.None? || r.allowPublic.value),
        every := if r.every.Some? && r.every.value >= local.every then r.every.value else local.every,
        maxHosts := Lowered(local.maxHosts, r.maxHosts),
        rateLimit := Lowered(local.rateLimit, r.rateLimit),
        timeout := Lowered(local.timeout, r.timeout));
      if r.cidrs == [] then Some(cfg)
      else
        var cidrs := Validate(Joined(r.cidrs), cfg.allowPublic);
        if cidrs.None? || (local.cidrs != [] && !CidrsWithin(cidrs.value, local.cidrs)) then None
        else Some(cfg.(cidrs := cidrs.value))
  }

  /** Remote configuration never enables, speeds up or widens anything that can be compared. */
  lemma RemoteOnlyRestricts(local: Config, remote: Option<Remote>)
    requires Discovered(local, remote).Some?
    ensures var cfg := Discovered(local, remote).value;
            && (cfg.enabled ==> local.enabled) && (cfg.allowPublic ==> local.allowPublic)
            && cfg.every >= local.every
            && (local.maxHosts > 0 ==> 0 < cfg.maxHosts <= local.maxHosts)
            && (local.rateLimit > 0 ==> 0 < cfg.rateLimit <= local.rateLimit)
            && (local.timeout > 0 ==> 0 < cfg.timeout <= local.timeout)
  {
  }

  /** The tightest of the positive bounds is in force. */
  predicate Tightest(bound: int, local: int, remote: Option<int>) {
    && (remote.Some? && remote.value > 0 ==> 0 < bound <= remote.value)
    && (local > 0 ==> 0 < bound <= local)
    && (bound == local || (remote.Some? && bound == remote.value > 0))
  }

  /** ... and whatever restriction it asks for takes effect. */
  lemma RestrictionsTakeEffect(local: Config, r: Remote)
    requires Discovered(local, Some(r)).Some?
    ensures var cfg := Discovered(local, Some(r)).value;
            && (cfg.enabled <==> local.enabled && r.enabled != Some(false))
            && (cfg.allowPublic <==> local.allowPublic && r.allowPublic != Some(false))
            && (r.every.Some? ==> cfg.every >= r.every.value)
            && (cfg.every == local.every || r.every == Some(cfg.every))
            && Tightest(cfg.maxHosts, local.maxHosts, r.maxHosts)
            && Tightest(cfg.rateLimit, local.rateLimit, r.rateLimit)
            && Tightest(cfg.timeout, local.timeout, r.timeout)
  {
  }

  lemma {:induction false} ParsedRanges(pieces: seq<Piece>)
    ensures ParseStrict(pieces).Some? <==> Malformed !in pieces
    ensures ParseStrict(pieces).Some? ==> forall c :: c in ParseStrict(pieces).value <==> Range(c) in pieces
  {
    if pieces != [] {
      ParsedRanges(pieces[1..]);
      assert pieces == [pieces[0]] + pieces[1..];
    }
  }

  /** A remote list of ranges is refused exactly if a piece of it is malformed, if it names a public range
      although these are not allowed, or if it names a range that no local one contains. */
  lemma {:induction false} RefusedIff(local: Config, r: Remote)
    ensures var pieces := Joined(r.cidrs);
            var allowed := local.allowPublic && r.allowPublic != Some(false);
            Discovered(local, Some(r)).None? <==>
              && r.cidrs != []
              && (|| Malformed in pieces
                  || (!allowed && exists c: Cidr :: Range(c) in pieces && c != Absent && !IsPrivate(c))
                  || (local.cidrs != [] && exists c: Cidr :: Range(c) in pieces && !WithinSome(c, local.cidrs)))
  {
    hide IsPrivate, ContainedWithin;
    var pieces := Joined(r.cidrs);
    ParsedRanges(pieces);
    if Malformed !in pieces {
      var cidrs := ParseStrict(pieces).value;
      forall i | 0 <= i < |cidrs| ensures Range(cidrs[i]) in pieces {
        assert cidrs[i] in cidrs;
      }
    }
  }

  predicate WithinSome(c: Cidr, ranges: seq<Cidr>) {
    exists j :: 0 <= j < |ranges| && ContainedWithin(c, ranges[j])
  }

  predicate Within(ranges: seq<Cidr>, ip: Ip) {
    exists i :: 0 <= i < |ranges| && Contains(ranges[i], ip)
  }

  function PlanOptions(cfg: Config, interfaces: seq<Cidr>, localIps: set<Ip>, deny: seq<Cidr>): Options {
    Options(cfg.cidrs, interfaces, localIps, deny, cfg.maxHosts, cfg.allowPublic)
  }

  /** `p` is the plan `BuildPlan` makes of the configuration on a host with these interfaces. */
  ghost predicate PlanFrom(cfg: Config, interfaces: seq<Cidr>, localIps: set<Ip>, deny: seq<Cidr>, p: Plan) {
    var o := PlanOptions(cfg, interfaces, localIps, deny);
    && Chosen(o) != [] && AllAcceptable(o, Chosen(o))
    && AllV4(Present(Chosen(o))) && Plans(o, Present(Chosen(o)), p)
  }

  /** A list of ranges that is not empty but names none. */
  predicate NamesNothing(remote: Option<Remote>) {
    && remote.Some? && remote.value.cidrs != []
    && forall i :: 0 <= i < |Joined(remote.value.cidrs)| ==> Joined(remote.value.cidrs)[i].Blank?
  }

  lemma {:induction false} ParseIsEmpty(pieces: seq<Piece>)
    requires ParseStrict(pieces).Some?
    ensures ParseStrict(pieces).value == [] <==> forall i :: 0 <= i < |pieces| ==> pieces[i].Blank?
  {
    if pieces != [] {
      var rest := pieces[1..];
      ParseIsEmpty(rest);
      assert forall i :: 0 <= i < |rest| ==> rest[i] == pieces[i + 1];
      if forall i :: 0 <= i < |rest| ==> rest[i].Blank? {
        assert forall i :: 1 <= i < |pieces| ==> pieces[i] == rest[i - 1];
      }
    }
  }

  lemma {:induction false} ChosenRanges(local: Config, remote: Option<Remote>)
    requires Discovered(local, remote).Some? && local.cidrs != []
    ensures var cidrs := Discovered(local, remote).value.cidrs;
            && (NamesNothing(remote) ==> cidrs == [])
            && (!NamesNothing(remote) ==> cidrs != [] && (cidrs == local.cidrs || CidrsWithin(cidrs, local.cidrs)))
  {
    if remote.Some? && remote.value.cidrs != [] {
      ParseIsEmpty(Joined(remote.value.cidrs));
    }
  }

  lemma {:induction false} WithinIsInclusion(requested: seq<Cidr>, allowed: seq<Cidr>, ip: Ip)
    requires (requested == allowed || CidrsWithin(requested, allowed)) && Within(requested, ip)
    ensures Within(allowed, ip)
  {
    if requested != allowed {
      var i :| 0 <= i < |requested| && Contains(requested[i], ip);
      var j :| 0 <= j < |allowed| && ContainedWithin(requested[i], allowed[j]);
      Includes(requested[i], allowed[j]);
    }
  }

  lemma {:induction false} PrivateRangePrivateAddress(c: Cidr, ip: Ip)
    requires c.V4? && IsPrivate(c) && Contains(c, ip)
    ensures PrivateAddress(ip)
  {
    hide Contains;
    var i :| 0 <= i < |INTERNAL4| && ContainedWithin(c, INTERNAL4[i]);
    Includes(c, INTERNAL4[i]);
  }

  /** Number and kind of targets are bounded by the local policy whatever the remote side says. */
  lemma {:induction false} LocalPolicyBoundsPlans(
    local: Config, remote: Option<Remote>, interfaces: seq<Cidr>, localIps: set<Ip>, deny: seq<Cidr>, p: Plan)
    requires Discovered(local, remote).Some? && PlanFrom(Discovered(local, remote).value, interfaces, localIps, deny, p)
    ensures local.maxHosts > 0 ==> |p.targets| <= local.maxHosts
    ensures !local.allowPublic ==> forall ip :: ip in p.targets ==> PrivateAddress(ip)
  {
    var o := PlanOptions(Discovered(local, remote).value, interfaces, localIps, deny);
    RemoteOnlyRestricts(local, remote);
    hide Discovered, Contains, IsPrivate, PrivateAddress, Plans, Eligible, Addresses, Chosen, Present, Probed;
    TargetsAreEligible(o, Present(Chosen(o)), p);
    PresentMembers(o, Chosen(o));
    if !local.allowPublic {
      forall ip | ip in p.targets ensures PrivateAddress(ip) {
        var c :| c in Present(Chosen(o)) && Contains(c, ip);
        PrivateRangePrivateAddress(c, ip);
      }
    }
  }

  lemma {:induction false} ConfiguredTargets(
    cfg: Config, interfaces: seq<Cidr>, localIps: set<Ip>, deny: seq<Cidr>, p: Plan, ip: Ip)
    requires PlanFrom(cfg, interfaces, localIps, deny, p) && cfg.cidrs != [] && ip in p.targets
    ensures Within(cfg.cidrs, ip)
  {
    var o := PlanOptions(cfg, interfaces, localIps, deny);
    assert Chosen(o) == cfg.cidrs;
    hide Plans, Contains, IsPrivate, Eligible, Addresses, Chosen, Present, Probed;
    TargetsAreEligible(o, Present(cfg.cidrs), p);
    PresentMembers(o, cfg.cidrs);
    var c :| c in Present(cfg.cidrs) && Contains(c, ip);
    var i :| 0 <= i < |cfg.cidrs| && cfg.cidrs[i] == c;
  }

  /** A host attached to nothing but the address `ip`. */
  function Attached(ip: Ip): seq<Cidr> {
    [V4(ip, 32)]
  }

  lemma {:induction false} SingleHost(ip: Ip)
    ensures Hosts(V4(ip, 32)) == [ip] && Addresses(Attached(ip)) == [ip]
  {
    var c := V4(ip, 32);
    HostsAt(c);
    assert Pow2(0) == 1;
    AddressOf(ip);
    assert First(c) == Value(ip);
    assert Attached(ip)[..0] == [];
  }

  lemma {:induction false} PrivateSingle(ip: Ip)
    requires PrivateAddress(ip)
    ensures IsPrivate(V4(ip, 32)) && PrivateInterfaces(Attached(ip)) == Attached(ip)
  {
    var i :| 0 <= i < |INTERNAL4| && Contains(INTERNAL4[i], ip);
    assert ContainedWithin(V4(ip, 32), INTERNAL4[i]);
    assert Attached(ip)[..0] == [];
  }

  lemma {:induction false} PlanForSingle(cfg: Config, ip: Ip)
    requires cfg.cidrs == [] && PrivateAddress(ip)
    ensures PlanFrom(cfg, Attached(ip), {}, [], Planned([ip], false, 0, 0))
  {
    var o := PlanOptions(cfg, Attached(ip), {}, []);
    PrivateSingle(ip);
    SingleHost(ip);
    assert Chosen(o) == Attached(ip) && Attached(ip)[..0] == [];
    assert Present(Attached(ip)) == Attached(ip);
    var all := Addresses(Attached(ip));
    assert all == [ip] && all[..0] == [];
    assert Eligible(o, all) == [ip];
    assert (set x | x in all) == {ip};
  }

  /** With local ranges configured, every plan on every host stays inside them exactly if the remote
      side does not send a list that names nothing, or the local ranges cover all private addresses
      anyway: such a list replaces the local ranges by those of the interfaces. */
  lemma {:induction false} LocalRangesBoundPlans(local: Config, remote: Option<Remote>)
    requires Discovered(local, remote).Some? && local.cidrs != []
    ensures (forall interfaces, localIps, deny, p ::
               PlanFrom(Discovered(local, remote).value, interfaces, localIps, deny, p) ==>
               forall ip :: ip in p.targets ==> Within(local.cidrs, ip)) <==>
            !NamesNothing(remote) || forall ip :: PrivateAddress(ip) ==> Within(local.cidrs, ip)
  {
    var cfg := Discovered(local, remote).value;
    ChosenRanges(local, remote);
    if !NamesNothing(remote) {
      forall interfaces, localIps, deny, p, ip | PlanFrom(cfg, interfaces, localIps, deny, p) && ip in p.targets
        ensures Within(local.cidrs, ip)
      {
        ConfiguredTargets(cfg, interfaces, localIps, deny, p, ip);
        WithinIsInclusion(cfg.cidrs, local.cidrs, ip);
      }
    } else {
      forall interfaces, localIps, deny, p, ip | PlanFrom(cfg, interfaces, localIps, deny, p) && ip in p.targets
        ensures PrivateAddress(ip)
      {
        InterfaceTargets(cfg, interfaces, localIps, deny, p, ip);
      }
      forall ip | PrivateAddress(ip) ensures PlanFrom(cfg, Attached(ip), {}, [], Planned([ip], false, 0, 0)) {
        PlanForSingle(cfg, ip);
      }
      forall ip | PrivateAddress(ip) && !Within(local.cidrs, ip)
        ensures exists interfaces, localIps, deny, p ::
                  PlanFrom(cfg, interfaces, localIps, deny, p) && ip in p.targets
      {
        assert PlanFrom(cfg, Attached(ip), {}, [], Planned([ip], false, 0, 0));
        assert ip in Planned([ip], false, 0, 0).targets;
      }
    }
  }

  lemma {:induction false} InterfaceTargets(
    cfg: Config, interfaces: seq<Cidr>, localIps: set<Ip>, deny: seq<Cidr>, p: Plan, ip: Ip)
    requires PlanFrom(cfg, interfaces, localIps, deny, p) && cfg.cidrs == [] && ip in p.targets
    ensures PrivateAddress(ip)
  {
    hide Plans, Contains, IsPrivate, SelectsPrivate, PrivateAddress, Eligible, Present;
    var o := PlanOptions(cfg, interfaces, localIps, deny);
    TargetsAreEligible(o, Present(Chosen(o)), p);
    PresentMembers(o, Chosen(o));
    PrivateInterfacesSelect(interfaces);
    var c :| c in Present(Chosen(o)) && Contains(c, ip);
    SelectedIsPrivate(interfaces, Chosen(o), c, ip);
  }

  lemma {:induction false} SelectedIsPrivate(ranges: seq<Cidr>, r: seq<Cidr>, c: Cidr, ip: Ip)
    requires SelectsPrivate(ranges, r) && c in r && Contains(c, ip)
    ensures PrivateAddress(ip)
  {
    PrivateRangePrivateAddress(c, ip);
  }

  /** A remote list holding one comma takes discovery out of the local range 10.0.0.0/24. */
  lemma {:induction false} CommaLeavesTheLocalRange(local: Config)
    requires local.cidrs == [Block4(10, 0, 24)]
    ensures var remote := Some(Remote(None, None, None, None, None, None, [[Blank, Blank]]));
            var ip: Ip := [192, 168, 0, 1];
            && Discovered(local, remote).Some? && NamesNothing(remote)
            && PlanFrom(Discovered(local, remote).value, Attached(ip), {}, [], Planned([ip], false, 0, 0))
            && !Within(local.cidrs, ip)
  {
    var vals := [[Blank, Blank]];
    assert Joined(vals) == [Blank, Blank] by {
      assert vals[1..] == [];
    }
    assert [Blank, Blank][1..] == [Blank] && [Blank][1..] == [];
    var remote := Some(Remote(None, None, None, None, None, None, vals));
    ChosenRanges(local, remote);
    var ip: Ip := [192, 168, 0, 1];
    PrivateExample(ip);
    PlanForSingle(Discovered(local, remote).value, ip);
    OutsideExample(ip);
  }

  lemma {:induction false} PrivateExample(ip: Ip)
    requires ip == [192, 168, 0, 1]
    ensures PrivateAddress(ip)
  {
    var block := Block4(192, 168, 16);
    assert INTERNAL4[2] == block;
    FirstBytes(block.base, ip, 16);
    assert Contains(INTERNAL4[2], ip);
  }

  /** Two addresses that agree in all bytes the mask covers have the same masked bytes. */
  lemma {:induction false} FirstBytes(s: Bytes, t: Bytes, ones: nat)
    requires |s| == |t| && forall i :: 0 <= i < |s| && 8 * i < ones ==> s[i] == t[i]
    ensures Masked(s, ones) == Masked(t, ones)
  {
    if s != [] {
      var n := |s| - 1;
      FirstBytes(s[..n], t[..n], ones);
      MaskOfByte(s[n], ones - 8 * n);
      MaskOfByte(t[n], ones - 8 * n);
      PowValues();
    }
  }

  /** A mask of at least eight bits tells addresses with different first bytes apart. */
  lemma {:induction false} DifferentFirstBytes(s: Ip, t: Ip, ones: nat)
    requires ones >= 8 && s[0] != t[0]
    ensures Masked(s, ones) != Masked(t, ones)
  {
    hide Masked, MaskOf;
    MaskedAt(s, ones, 0);
    MaskedAt(t, ones, 0);
    MaskOfByte(s[0], ones);
    MaskOfByte(t[0], ones);
    assert Pow2(0) == 1;
  }

  lemma {:induction false} OutsideExample(ip: Ip)
    requires ip == [192, 168, 0, 1]
    ensures !Contains(Block4(10, 0, 24), ip)
  {
    hide Masked;
    DifferentFirstBytes(Block4(10, 0, 24).base, ip, 24);
  }
}
