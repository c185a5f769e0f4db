/** The rule router of app/route/router.go: rules are compiled once and the first one that
    matches and names a target decides. */
module Router {
  import opened Bytes
  import D = DomainPattern
  import Ports

  type Addr = seq<Byte>

  datatype Subnet = Subnet(ip: Addr, mask: seq<Byte>)

  /** What the Go libraries decide: addresses, prefixes and user-written regular expressions. */
  datatype Library = Library(
    parseIP: string -> Option<Addr>,
    parseCIDR: string -> Option<Subnet>,
    isV4: Addr -> bool,
    contains: (Subnet, Addr) -> bool,
    equal: (Addr, Addr) -> bool,
    compile: string -> Option<string -> bool>)

  datatype Rule = Rule(
    domain: seq<string>, ip: seq<string>, port: string, sourcePort: string, network: string,
    source: seq<string>, user: seq<string>, inboundTag: seq<string>, protocol: seq<string>,
    outboundTag: string, balancerTag: string)

  datatype Balancer = Balancer(tag: string, selector: seq<string>)

  datatype Config = Config(rules: seq<Rule>, balancers: seq<Balancer>)

  datatype Context = Context(
    inboundTag: string, network: string, sourceIP: Option<Addr>, targetIP: Option<Addr>,
    targetDomain: string, port: U16, sourcePort: U16, protocol: string, user: string)

  datatype Regex = Translated(items: seq<D.Item>) | Written(matches: string -> bool)

  datatype CompiledRule = CompiledRule(
    raw: Rule, domainRegex: seq<Regex>, ipNets: seq<Subnet>, outboundTag: string, balancerTag: string)

  datatype Result = Target(tag: string) | NoRoute

  // ---------- compiling ----------

  function CompileDomain(lib: Library, domain: string): Option<Regex>
  {
    if "regexp:" <= domain then
      match lib.compile(domain[7..]) case None => None case Some(f) => Some(Written(f))
    else
      match D.ParseRegex(D.ConvertDomainToRegex(domain)) case None => None case Some(items) => Some(Translated(items))
  }

  function CompileIP(lib: Library, ip: string): Option<Subnet>
  {
    if '/' in ip then lib.parseCIDR(ip)
    else
      match lib.parseIP(ip)
      case None => None
      case Some(a) => Some(Subnet(a, seq(if lib.isV4(a) then 4 else 16, i => 0xFF)))
  }

  /** What compiles, in order; what does not is dropped. */
  function Kept<A, B>(f: A -> Option<B>, s: seq<A>): seq<B>
  {
    if s == [] then []
    else
      Kept(f, s[..|s| - 1]) + match f(s[|s| - 1]) case None => [] case Some(b) => [b]
  }

  function CompileRule(lib: Library, rule: Rule): CompiledRule
  {
    CompiledRule(rule, Kept((d: string) => CompileDomain(lib, d), rule.domain),
                 Kept((i: string) => CompileIP(lib, i), rule.ip), rule.outboundTag, rule.balancerTag)
  }

  lemma {:induction false} KeptMembers<A, B>(f: A -> Option<B>, s: seq<A>, hit: B -> bool)
    ensures (exists k | 0 <= k < |Kept(f, s)| :: hit(Kept(f, s)[k])) <==>
      (exists i | 0 <= i < |s| :: f(s[i]).Some? && hit(f(s[i]).value))
  {
    if s != [] {
      var n, init := |s| - 1, s[..|s| - 1];
      KeptMembers(f, init, hit);
      var old_, all := Kept(f, init), Kept(f, s);
      assert forall k | 0 <= k < |old_| :: all[k] == old_[k];
      assert forall i | 0 <= i < n :: init[i] == s[i];
      if f(s[n]).Some? {
        assert all[|old_|] == f(s[n]).value;
      }
    }
  }

  // ---------- what a rule asks for, in terms of its configuration ----------

  predicate RegexHits(re: Regex, name: string)
  {
    match re
    case Translated(items) => D.MatchString(items, name)
    case Written(f) => f(name)
  }

  ghost predicate DomainHits(lib: Library, domain: string, name: string)
  {
    if "regexp:" <= domain then lib.compile(domain[7..]).Some? && lib.compile(domain[7..]).value(name)
    else D.Meaning(domain, name, true)
  }

  predicate IPHits(lib: Library, pattern: string, a: Addr)
  {
    CompileIP(lib, pattern).Some? && lib.contains(CompileIP(lib, pattern).value, a)
  }

  predicate MatchIP(lib: Library, a: Addr, pattern: string)
  {
    if '/' in pattern then lib.parseCIDR(pattern).Some? && lib.contains(lib.parseCIDR(pattern).value, a)
    else lib.parseIP(pattern).Some? && lib.equal(a, lib.parseIP(pattern).value)
  }

  ghost predicate AnyDomainHits(lib: Library, rule: Rule, name: string)
  {
    exists d | d in rule.domain :: DomainHits(lib, d, name)
  }

  ghost predicate AnyIPHits(lib: Library, rule: Rule, a: Addr)
  {
    exists p | p in rule.ip :: IPHits(lib, p, a)
  }

  /** One conjunction: every list that is given must be met. A domain or address list binds
      only when the context has that datum, but if either list is given one must bind. */
  ghost predicate RuleMatches(lib: Library, rule: Rule, rc: Context)
  {
    var byDomain := rule.domain != [] && rc.targetDomain != "";
    var byIP := rule.ip != [] && rc.targetIP.Some?;
    && (rule.inboundTag == [] || rc.inboundTag in rule.inboundTag)
    && (rule.network == "" || rule.network == rc.network)
    && (rule.protocol == [] || rc.protocol in rule.protocol)
    && (rule.user == [] || rc.user in rule.user)
    && (rule.port == "" || Ports.PortMatches(rule.port, rc.port))
    && (rule.sourcePort == "" || Ports.PortMatches(rule.sourcePort, rc.sourcePort))
    && (rule.source == [] || rc.sourceIP.None? ||
        exists p | p in rule.source :: MatchIP(lib, rc.sourceIP.value, p))
    && (byDomain ==> AnyDomainHits(lib, rule, rc.targetDomain))
    && (byIP ==> AnyIPHits(lib, rule, rc.targetIP.value))
    && ((rule.domain == [] && rule.ip == []) || byDomain || byIP)
  }

  // ---------- the compiled lists hit what the configured ones do ----------

  lemma CompiledDomain(lib: Library, d: string, name: string)
    ensures (CompileDomain(lib, d).Some? && RegexHits(CompileDomain(lib, d).value, name)) <==> DomainHits(lib, d, name)
  {
    if !("regexp:" <= d) {
      D.PatternMeaning(d, name);
    }
  }

  lemma CompiledDomains(lib: Library, rule: Rule, name: string)
    ensures var res := CompileRule(lib, rule).domainRegex;
      (exists k | 0 <= k < |res| :: RegexHits(res[k], name)) <==> AnyDomainHits(lib, rule, name)
  {
    hide CompileDomain, DomainHits, RegexHits;
    var f, hit := (d: string) => CompileDomain(lib, d), (re: Regex) => RegexHits(re, name);
    var res := Kept(f, rule.domain);
    KeptMembers(f, rule.domain, hit);
    assert forall k | 0 <= k < |res| :: hit(res[k]) == RegexHits(res[k], name);
    forall i | 0 <= i < |rule.domain|
      ensures f(rule.domain[i]).Some? && hit(f(rule.domain[i]).value) <==> DomainHits(lib, rule.domain[i], name)
    {
      CompiledDomain(lib, rule.domain[i], name);
    }
  }

  lemma CompiledIPs(lib: Library, rule: Rule, a: Addr)
    ensures var nets := CompileRule(lib, rule).ipNets;
      (exists k | 0 <= k < |nets| :: lib.contains(nets[k], a)) <==> AnyIPHits(lib, rule, a)
  {
    hide CompileIP;
    var f, hit := (p: string) => CompileIP(lib, p), (n: Subnet) => lib.contains(n, a);
    var nets := Kept(f, rule.ip);
    KeptMembers(f, rule.ip, hit);
    assert forall k | 0 <= k < |nets| :: hit(nets[k]) == lib.contains(nets[k], a);
    assert forall i | 0 <= i < |rule.ip| ::
        f(rule.ip[i]).Some? && hit(f(rule.ip[i]).value) <==> IPHits(lib, rule.ip[i], a);
  }

  // ---------- each condition of a rule ----------

  const ANYTHING := Rule([], [], "", "", "", [], [], [], [], "", "")

  /** A rule matches exactly when each of its conditions, alone in a rule, does. */
  lemma ConditionsAreJoined(lib: Library, r: Rule, rc: Context)
    ensures RuleMatches(lib, r, rc) <==>
      && RuleMatches(lib, ANYTHING.(inboundTag := r.inboundTag), rc)
      && RuleMatches(lib, ANYTHING.(network := r.network), rc)
      && RuleMatches(lib, ANYTHING.(protocol := r.protocol), rc)
      && RuleMatches(lib, ANYTHING.(user := r.user), rc)
      && RuleMatches(lib, ANYTHING.(port := r.port), rc)
      && RuleMatches(lib, ANYTHING.(sourcePort := r.sourcePort), rc)
      && RuleMatches(lib, ANYTHING.(source := r.source), rc)
      && RuleMatches(lib, ANYTHING.(domain := r.domain, ip := r.ip), rc)
  {
    hide Ports.PortMatches, MatchIP, DomainHits, IPHits;
    SameTargets(lib, r, ANYTHING.(domain := r.domain, ip := r.ip), rc);
  }

  lemma SameTargets(lib: Library, r: Rule, t: Rule, rc: Context)
    requires t.domain == r.domain && t.ip == r.ip
    ensures AnyDomainHits(lib, r, rc.targetDomain) <==> AnyDomainHits(lib, t, rc.targetDomain)
    ensures rc.targetIP.Some? ==> (AnyIPHits(lib, r, rc.targetIP.value) <==> AnyIPHits(lib, t, rc.targetIP.value))
  {
  }

  /** One configured value: the context must have it, or, for the source address, lack one. */
  lemma OneCondition(lib: Library, rc: Context, v: string)
    ensures RuleMatches(lib, ANYTHING, rc)
    ensures RuleMatches(lib, ANYTHING.(inboundTag := [v]), rc) <==> rc.inboundTag == v
    ensures v != "" ==> (RuleMatches(lib, ANYTHING.(network := v), rc) <==> rc.network == v)
    ensures RuleMatches(lib, ANYTHING.(protocol := [v]), rc) <==> rc.protocol == v
    ensures RuleMatches(lib, ANYTHING.(user := [v]), rc) <==> rc.user == v
    ensures v != "" ==> (RuleMatches(lib, ANYTHING.(port := v), rc) <==> Ports.PortMatches(v, rc.port))
    ensures v != "" ==> (RuleMatches(lib, ANYTHING.(sourcePort := v), rc) <==> Ports.PortMatches(v, rc.sourcePort))
    ensures RuleMatches(lib, ANYTHING.(source := [v]), rc) <==>
      rc.sourceIP.None? || MatchIP(lib, rc.sourceIP.value, v)
  {
    hide Ports.PortMatches, MatchIP, AnyDomainHits, AnyIPHits;
    assert v in [v];
  }

  /** One domain, one address, or both: those the context can be held against must hit, and it
      must have at least one of them. */
  lemma OneTarget(lib: Library, rc: Context, d: string, p: string)
    ensures RuleMatches(lib, ANYTHING.(domain := [d]), rc) <==> rc.targetDomain != "" && DomainHits(lib, d, rc.targetDomain)
    ensures RuleMatches(lib, ANYTHING.(ip := [p]), rc) <==> rc.targetIP.Some? && IPHits(lib, p, rc.targetIP.value)
    ensures RuleMatches(lib, ANYTHING.(domain := [d], ip := [p]), rc) <==>
      && (rc.targetDomain != "" ==> DomainHits(lib, d, rc.targetDomain))
      && (rc.targetIP.Some? ==> IPHits(lib, p, rc.targetIP.value))
      && (rc.targetDomain != "" || rc.targetIP.Some?)
  {
    hide DomainHits, IPHits, MatchIP;
    assert d in [d] && p in [p];
  }

  // ---------- plain addresses ----------

  /** The four bytes of an address that is written in four or mapped into sixteen. */
  function To4(a: Addr): Option<Addr>
  {
    if |a| == 4 then Some(a)
    else if |a| == 16 && (forall i | 0 <= i < 10 :: a[i] == 0) && a[10] == a[11] == 0xFF then Some(a[12..])
    else None
  }

  function Canonical(a: Addr): Addr
  {
    match To4(a) case Some(b) => b case None => a
  }

  /** The bits x and y have in common. */
  function And(x: nat, y: nat): nat
  {
    if x == 0 || y == 0 then 0 else 2 * And(x / 2, y / 2) + x % 2 * (y % 2)
  }

  /** net.IPNet.Contains: equal network numbers under the mask. */
  predicate Masked(net: Subnet, a: Addr)
  {
    var n, b := Canonical(net.ip), Canonical(a);
    var mask := if |net.mask| == 16 && |n| == 4 then net.mask[12..] else net.mask;
    && |b| == |n| == |mask|
    && forall i | 0 <= i < |n| :: And(n[i], mask[i]) == And(b[i], mask[i])
  }

  function Ones(k: nat): nat
  {
    if k == 0 then 0 else 2 * Ones(k - 1) + 1
  }

  lemma {:induction false} AndOnes(x: nat, k: nat)
    requires x <= Ones(k)
    ensures And(x, Ones(k)) == x
  {
    if k > 0 && x > 0 {
      AndOnes(x / 2, k - 1);
      assert Ones(k) / 2 == Ones(k - 1) && Ones(k) % 2 == 1;
    }
  }

  lemma WholeByte(x: Byte)
    ensures And(x, 0xFF) == x
  {
    assert Ones(4) == 0xF;
    assert Ones(8) == 0xFF;
    AndOnes(x, 8);
  }

  /** An entry without a slash hits exactly the address it names, in either of its forms. */
  lemma PlainAddressHits(lib: Library, entry: string, a: Addr)
    requires '/' !in entry
    requires forall x :: lib.isV4(x) <==> To4(x).Some?
    requires forall n, x :: lib.contains(n, x) <==> Masked(n, x)
    requires lib.parseIP(entry).Some? ==> |lib.parseIP(entry).value| in {4, 16}
    ensures IPHits(lib, entry, a) <==> lib.parseIP(entry).Some? && Canonical(a) == Canonical(lib.parseIP(entry).value)
  {
    if lib.parseIP(entry).Some? {
      var ip := lib.parseIP(entry).value;
      var net := CompileIP(lib, entry).value;
      assert lib.contains(net, a) <==> Masked(net, a);
      FullMaskHits(net, a);
    }
  }

  lemma FullMaskHits(net: Subnet, a: Addr)
    requires |net.mask| == |Canonical(net.ip)| && forall i | 0 <= i < |net.mask| :: net.mask[i] == 0xFF
    ensures Masked(net, a) <==> Canonical(a) == Canonical(net.ip)
  {
    hide Canonical, And;
    var n, b := Canonical(net.ip), Canonical(a);
    if |b| == |n| {
      forall i | 0 <= i < |n| ensures And(n[i], net.mask[i]) == And(b[i], net.mask[i]) <==> n[i] == b[i] {
        WholeByte(n[i]);
        WholeByte(b[i]);
      }
    }
  }

  // ---------- first match ----------

  /** The rule decides: it matches and names a target. */
  ghost predicate Decides(lib: Library, rule: Rule, rc: Context)
  {
    RuleMatches(lib, rule, rc) && (rule.outboundTag != "" || rule.balancerTag != "")
  }

  ghost predicate FirstDecides(lib: Library, rules: seq<Rule>, rc: Context, k: nat)
  {
    && k < |rules| && Decides(lib, rules[k], rc)
    && forall j | 0 <= j < k :: !Decides(lib, rules[j], rc)
  }

  /** Balancer k is the first of that tag that has a selector. */
  ghost predicate FirstChoice(balancers: seq<Balancer>, tag: string, k: nat)
  {
    && k < |balancers| && balancers[k].tag == tag && balancers[k].selector != []
    && forall j | 0 <= j < k :: balancers[j].tag == tag ==> balancers[j].selector == []
  }

  /** It gives its first choice; without one the choice is direct. */
  ghost predicate Selected(balancers: seq<Balancer>, tag: string, choice: string)
  {
    if exists k: nat :: FirstChoice(balancers, tag, k)
    then exists k: nat :: FirstChoice(balancers, tag, k) && choice == balancers[k].selector[0]
    else choice == "direct"
  }

  ghost predicate TargetOf(rule: Rule, balancers: seq<Balancer>, tag: string)
  {
    if rule.outboundTag != "" then tag == rule.outboundTag else Selected(balancers, rule.balancerTag, tag)
  }

  /** The promised outcome: the first deciding rule's target, else the first balancer's choice. */
  ghost predicate Routed(lib: Library, cfg: Config, rc: Context, r: Result)
  {
    if exists k: nat :: FirstDecides(lib, cfg.rules, rc, k)
    then r.Target? && exists k: nat :: FirstDecides(lib, cfg.rules, rc, k) && TargetOf(cfg.rules[k], cfg.balancers, r.tag)
    else if cfg.balancers != [] then r.Target? && Selected(cfg.balancers, cfg.balancers[0].tag, r.tag)
    else r == NoRoute
  }

  lemma FirstIsUnique(lib: Library, rules: seq<Rule>, rc: Context, i: nat, j: nat)
    requires FirstDecides(lib, rules, rc, i) && FirstDecides(lib, rules, rc, j)
    ensures i == j
  {
  }

  lemma SelectedIsUnique(balancers: seq<Balancer>, tag: string, a: string, b: string)
    requires Selected(balancers, tag, a) && Selected(balancers, tag, b)
    ensures a == b
  {
  }

  /** The outcome is determined by the configuration and the context alone. */
  lemma RouteIsDetermined(lib: Library, cfg: Config, rc: Context, r: Result, s: Result)
    requires Routed(lib, cfg, rc, r) && Routed(lib, cfg, rc, s)
    ensures r == s
  {
    hide RuleMatches, Selected;
    if exists k: nat :: FirstDecides(lib, cfg.rules, rc, k) {
      var i: nat :| FirstDecides(lib, cfg.rules, rc, i) && TargetOf(cfg.rules[i], cfg.balancers, r.tag);
      var j: nat :| FirstDecides(lib, cfg.rules, rc, j) && TargetOf(cfg.rules[j], cfg.balancers, s.tag);
      FirstIsUnique(lib, cfg.rules, rc, i, j);
      if cfg.rules[i].outboundTag == "" {
        SelectedIsUnique(cfg.balancers, cfg.rules[i].balancerTag, r.tag, s.tag);
      }
    } else if cfg.balancers != [] {
      SelectedIsUnique(cfg.balancers, cfg.balancers[0].tag, r.tag, s.tag);
    }
  }

  // ---------- the first match, rule by rule ----------

  /** Without rules the first balancer's tag is looked up, and without balancers there is no route. */
  lemma RoutedWithoutRules(lib: Library, balancers: seq<Balancer>, rc: Context, r: Result)
    ensures Routed(lib, Config([], balancers), rc, r) <==>
      if balancers == [] then r == NoRoute else r.Target? && Selected(balancers, balancers[0].tag, r.tag)
  {
  }

  /** A rule in front decides if it matches and names an outbound, or else a balancer; otherwise the
      other rules do. */
  lemma RoutedInFront(lib: Library, rule: Rule, rules: seq<Rule>, balancers: seq<Balancer>, rc: Context, r: Result)
    ensures Routed(lib, Config([rule] + rules, balancers), rc, r) <==>
      if RuleMatches(lib, rule, rc) && rule.outboundTag != "" then r == Target(rule.outboundTag)
      else if RuleMatches(lib, rule, rc) && rule.balancerTag != "" then r.Target? && Selected(balancers, rule.balancerTag, r.tag)
      else Routed(lib, Config(rules, balancers), rc, r)
  {
    hide RuleMatches, Selected;
    var all := [rule] + rules;
    if Decides(lib, rule, rc) {
      assert FirstDecides(lib, all, rc, 0);
      forall k: nat | FirstDecides(lib, all, rc, k) ensures k == 0 {
        FirstIsUnique(lib, all, rc, k, 0);
      }
    } else {
      forall k: nat ensures FirstDecides(lib, all, rc, k + 1) <==> FirstDecides(lib, rules, rc, k) {
        ShiftedFirst(lib, rule, rules, rc, k);
      }
      assert forall k: nat :: FirstDecides(lib, all, rc, k) ==> k > 0 && FirstDecides(lib, rules, rc, k - 1) && all[k] == rules[k - 1];
      assert forall k: nat :: FirstDecides(lib, rules, rc, k) ==> FirstDecides(lib, all, rc, k + 1) && all[k + 1] == rules[k];
    }
  }

  lemma ShiftedFirst(lib: Library, rule: Rule, rules: seq<Rule>, rc: Context, k: nat)
    requires !Decides(lib, rule, rc)
    ensures FirstDecides(lib, [rule] + rules, rc, k + 1) <==> FirstDecides(lib, rules, rc, k)
  {
    hide Decides;
    var all := [rule] + rules;
    assert forall j: nat | j < |rules| :: all[j + 1] == rules[j];
    if FirstDecides(lib, all, rc, k + 1) {
      forall j | 0 <= j < k ensures !Decides(lib, rules[j], rc) {
        assert !Decides(lib, all[j + 1], rc);
      }
    }
  }

  lemma ShiftedChoice(b: Balancer, balancers: seq<Balancer>, tag: string, k: nat)
    requires b.tag == tag ==> b.selector == []
    ensures FirstChoice([b] + balancers, tag, k + 1) <==> FirstChoice(balancers, tag, k)
  {
    var all := [b] + balancers;
    assert forall j: nat | j < |balancers| :: all[j + 1] == balancers[j];
    if FirstChoice(all, tag, k + 1) {
      forall j | 0 <= j < k ensures balancers[j].tag == tag ==> balancers[j].selector == [] {
        assert all[j + 1] == balancers[j];
      }
    }
  }

  /** A balancer in front with the tag and a choice is taken, otherwise the others are asked. */
  lemma SelectedInFront(b: Balancer, balancers: seq<Balancer>, tag: string, choice: string)
    ensures Selected([], tag, choice) <==> choice == "direct"
    ensures Selected([b] + balancers, tag, choice) <==>
      if b.tag == tag && b.selector != [] then choice == b.selector[0] else Selected(balancers, tag, choice)
  {
    var all := [b] + balancers;
    if b.tag == tag && b.selector != [] {
      assert FirstChoice(all, tag, 0);
    } else {
      forall k: nat ensures FirstChoice(all, tag, k + 1) <==> FirstChoice(balancers, tag, k) {
        ShiftedChoice(b, balancers, tag, k);
      }
      assert forall k: nat :: FirstChoice(all, tag, k) ==> k > 0 && FirstChoice(balancers, tag, k - 1) && all[k] == balancers[k - 1];
      assert forall k: nat :: FirstChoice(balancers, tag, k) ==> FirstChoice(all, tag, k + 1) && all[k + 1] == balancers[k];
    }
  }

  // ---------- the router ----------

  /** The configured rules behind compiled ones. */
  function Raws(rules: seq<CompiledRule>): (raws: seq<Rule>)
    ensures |raws| == |rules| && forall i | 0 <= i < |rules| :: raws[i] == rules[i].raw
  {
    seq(|rules|, i requires 0 <= i < |rules| => rules[i].raw)
  }

  class Router {
    const lib: Library
    var config: Config
    var rules: seq<CompiledRule>

    ghost predicate Valid()
      reads this
    {
      forall i | 0 <= i < |rules| :: rules[i] == CompileRule(lib, rules[i].raw)
    }

    /** What routing goes by: the rules last compiled and the balancers last configured. */
    ghost function Serving(): Config
      reads this
    {
      Config(Raws(rules), config.balancers)
    }

    constructor (lib: Library, cfg: Config)
      ensures Valid() && Serving() == config == cfg && this.lib == lib
    {
      this.lib, config, rules := lib, cfg, [];
      new;
      CompileRules();
    }

    /** Two critical sections: calls of Route can fall between them. */
    method ReloadConfig(cfg: Config)
      requires Valid()
      modifies this
      ensures Valid() && Serving() == config == cfg
    {
      SetConfig(cfg);
      CompileRules();
    }

    /** The first one: until the rules are compiled, old rules meet the new balancers. */
    method SetConfig(cfg: Config)
      requires Valid()
      modifies this`config
      ensures Valid() && config == cfg
      ensures Serving() == Config(old(Serving()).rules, cfg.balancers)
    {
      config := cfg;
    }

    method CompileRules()
      modifies this`rules
      ensures Valid() && Serving() == config
    {
      rules := [];
      for i := 0 to |config.rules|
        invariant |rules| == i && Raws(rules) == config.rules[..i]
        invariant Valid()
      {
        var cr := CompileOne(config.rules[i]);
        rules := rules + [cr];
        assert Raws(rules) == config.rules[..i] + [config.rules[i]];
      }
      assert config.rules[..|config.rules|] == config.rules;
    }

    method CompileOne(rule: Rule) returns (cr: CompiledRule)
      ensures cr == CompileRule(lib, rule)
    {
      hide CompileDomain, CompileIP;
      ghost var f, g := (d: string) => CompileDomain(lib, d), (p: string) => CompileIP(lib, p);
      var domainRegex, ipNets := [], [];
      for i := 0 to |rule.domain|
        invariant domainRegex == Kept(f, rule.domain[..i])
      {
        assert rule.domain[..i + 1][..i] == rule.domain[..i];
        var re := CompileDomain(lib, rule.domain[i]);
        if re.Some? {
          domainRegex := domainRegex + [re.value];
        }
      }
      for i := 0 to |rule.ip|
        invariant ipNets == Kept(g, rule.ip[..i])
      {
        assert rule.ip[..i + 1][..i] == rule.ip[..i];
        var net := CompileIP(lib, rule.ip[i]);
        if net.Some? {
          ipNets := ipNets + [net.value];
        }
      }
      assert rule.domain[..|rule.domain|] == rule.domain && rule.ip[..|rule.ip|] == rule.ip;
      cr := CompiledRule(rule, domainRegex, ipNets, rule.outboundTag, rule.balancerTag);
    }

    static method ContainsString(haystack: seq<string>, needle: string) returns (found: bool)
      ensures found <==> needle in haystack
    {
      for i := 0 to |haystack|
        invariant needle !in haystack[..i]
      {
        if haystack[i] == needle {
          return true;
        }
      }
      return false;
    }

    method SourceMatches(rule: Rule, a: Addr) returns (matched: bool)
      ensures matched <==> exists p | p in rule.source :: MatchIP(lib, a, p)
    {
      for i := 0 to |rule.source|
        invariant forall j | 0 <= j < i :: !MatchIP(lib, a, rule.source[j])
      {
        if MatchIP(lib, a, rule.source[i]) {
          return true;
        }
      }
      return false;
    }

    method DomainMatches(rule: CompiledRule, name: string) returns (matched: bool)
      requires rule == CompileRule(lib, rule.raw)
      ensures matched <==> AnyDomainHits(lib, rule.raw, name)
    {
      hide CompileDomain, CompileIP, AnyDomainHits, Kept, RegexHits;
      CompiledDomains(lib, rule.raw, name);
      for i := 0 to |rule.domainRegex|
        invariant forall j | 0 <= j < i :: !RegexHits(rule.domainRegex[j], name)
      {
        if RegexHits(rule.domainRegex[i], name) {
          return true;
        }
      }
      return false;
    }

    method IPMatches(rule: CompiledRule, a: Addr) returns (matched: bool)
      requires rule == CompileRule(lib, rule.raw)
      ensures matched <==> AnyIPHits(lib, rule.raw, a)
    {
      hide CompileDomain, CompileIP, AnyIPHits, Kept;
      CompiledIPs(lib, rule.raw, a);
      for i := 0 to |rule.ipNets|
        invariant forall j | 0 <= j < i :: !lib.contains(rule.ipNets[j], a)
      {
        if lib.contains(rule.ipNets[i], a) {
          return true;
        }
      }
      return false;
    }

    method MatchRule(rule: CompiledRule, rc: Context) returns (m: bool)
      requires rule == CompileRule(lib, rule.raw)
      ensures m <==> RuleMatches(lib, rule.raw, rc)
    {
      hide Kept, Ports.PortMatches, AnyDomainHits, AnyIPHits, MatchIP;
      var ok;
      if |rule.raw.inboundTag| > 0 {
        ok := ContainsString(rule.raw.inboundTag, rc.inboundTag);
        if !ok {
          return false;
        }
      }
      if rule.raw.network != "" && rule.raw.network != rc.network {
        return false;
      }
      if |rule.raw.protocol| > 0 {
        ok := ContainsString(rule.raw.protocol, rc.protocol);
        if !ok {
          return false;
        }
      }
      if |rule.raw.user| > 0 {
        ok := ContainsString(rule.raw.user, rc.user);
        if !ok {
          return false;
        }
      }
      if rule.raw.port != "" {
        ok := Ports.MatchPort(rule.raw.port, rc.port);
        if !ok {
          return false;
        }
      }
      if rule.raw.sourcePort != "" {
        ok := Ports.MatchPort(rule.raw.sourcePort, rc.sourcePort);
        if !ok {
          return false;
        }
      }
      if |rule.raw.source| > 0 && rc.sourceIP.Some? {
        ok := SourceMatches(rule.raw, rc.sourceIP.value);
        if !ok {
          return false;
        }
      }
      m := MatchTarget(rule, rc);
    }

    /** The domain and address part of matchRule. */
    method MatchTarget(rule: CompiledRule, rc: Context) returns (m: bool)
      requires rule == CompileRule(lib, rule.raw)
      ensures m <==>
        var byDomain := rule.raw.domain != [] && rc.targetDomain != "";
        var byIP := rule.raw.ip != [] && rc.targetIP.Some?;
        && (byDomain ==> AnyDomainHits(lib, rule.raw, rc.targetDomain))
        && (byIP ==> AnyIPHits(lib, rule.raw, rc.targetIP.value))
        && ((rule.raw.domain == [] && rule.raw.ip == []) || byDomain || byIP)
    {
      hide Kept, AnyDomainHits, AnyIPHits;
      var domainMatched, ipMatched := false, false;
      if |rule.raw.domain| > 0 && rc.targetDomain != "" {
        domainMatched := DomainMatches(rule, rc.targetDomain);
        if !domainMatched {
          return false;
        }
      }
      if |rule.raw.ip| > 0 && rc.targetIP.Some? {
        ipMatched := IPMatches(rule, rc.targetIP.value);
        if !ipMatched {
          return false;
        }
      }
      if |rule.raw.domain| > 0 || |rule.raw.ip| > 0 {
        if rc.targetDomain != "" && domainMatched {
          return true;
        }
        if rc.targetIP.Some? && ipMatched {
          return true;
        }
        if !domainMatched && !ipMatched {
          return false;
        }
      }
      return true;
    }

    method SelectBalancer(tag: string) returns (choice: string)
      ensures Selected(config.balancers, tag, choice)
    {
      for i := 0 to |config.balancers|
        invariant forall j | 0 <= j < i :: config.balancers[j].tag == tag ==> config.balancers[j].selector == []
      {
        if config.balancers[i].tag == tag && |config.balancers[i].selector| > 0 {
          assert FirstChoice(config.balancers, tag, i);
          return config.balancers[i].selector[0];
        }
      }
      return "direct";
    }

    method Route(rc: Context) returns (r: Result)
      requires Valid()
      ensures Routed(lib, Serving(), rc, r)
    {
      hide RuleMatches, CompileDomain, CompileIP, Kept, Selected;
      ghost var raws := Raws(rules);
      for i := 0 to |rules|
        invariant forall j | 0 <= j < i :: !Decides(lib, raws[j], rc)
      {
        var m := MatchRule(rules[i], rc);
        if m {
          if rules[i].outboundTag != "" {
            assert FirstDecides(lib, raws, rc, i);
            return Target(rules[i].outboundTag);
          }
          if rules[i].balancerTag != "" {
            assert FirstDecides(lib, raws, rc, i);
            var choice := SelectBalancer(rules[i].balancerTag);
            return Target(choice);
          }
        }
      }
      if |config.balancers| > 0 {
        var choice := SelectBalancer(config.balancers[0].tag);
        return Target(choice);
      }
      return NoRoute;
    }
  }
}
