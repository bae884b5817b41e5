/** From a decoded configuration file to the upstream that serves a connection. */
module Routing {
  import opened Options

  type Addr = nat

  datatype Match =
    | Any
    | Never
    | Sni(name: string)
    | SniRegex(regex: string)
    | SniRegexNot(regex: string)
    | Alpn(protocol: string)
    | DestinationPort(port: nat)

  /** `loads` tells whether its certificate, key and backends could be loaded. */
  datatype Upstream = Upstream(name: string, matches: Match, loads: bool)

  datatype Protocol = Tcp | Tls

  datatype RuleConfig = RuleConfig(protocol: Protocol, listen: seq<Addr>, upstreams: seq<Upstream>)

  datatype Rule = Rule(protocol: Protocol, upstreams: seq<Upstream>)

  /** What is known of a connection. */
  datatype Context = Context(sni: Option<string>, alpns: Option<seq<string>>, port: nat)

  /** Whether a regular expression matches a name. */
  type Regex = (string, string) -> bool

  // ---------------------------------------------------------------- matching

  predicate Matches(re: Regex, ctx: Context, m: Match) {
    match m
    case Any => true
    case Never => false
    case Sni(name) => ctx.sni.Some? && ctx.sni.value == name
    case SniRegex(regex) => ctx.sni.Some? && re(regex, ctx.sni.value)
    case SniRegexNot(regex) => ctx.sni.Some? && !re(regex, ctx.sni.value)
    case DestinationPort(port) => ctx.port == port
    case Alpn(protocol) => ctx.alpns.Some? && protocol in ctx.alpns.value
  }

  function FindMatching(re: Regex, ctx: Context, upstreams: seq<Upstream>): Option<Upstream>
  {
    if upstreams == [] then None
    else if Matches(re, ctx, upstreams[0].matches) then Some(upstreams[0])
    else FindMatching(re, ctx, upstreams[1..])
  }

  // ---------------------------------------------------------------- loading

  function Loaded(upstreams: seq<Upstream>): seq<Upstream>
  {
    if upstreams == [] then []
    else (if upstreams[0].loads then [upstreams[0]] else []) + Loaded(upstreams[1..])
  }

  function Bind(rule: Rule, addrs: seq<Addr>, m: map<Addr, Rule>): map<Addr, Rule>
    decreases |addrs|
  {
    if addrs == [] then m else Bind(rule, addrs[1..], m[addrs[0] := rule])
  }

  /** Rules are entered in file order; a rule left without upstreams aborts the whole configuration. */
  function Collect(rules: seq<RuleConfig>, m: map<Addr, Rule>): Option<map<Addr, Rule>>
    decreases |rules|
  {
    if rules == [] then Some(m)
    else if Loaded(rules[0].upstreams) == [] then None
    else Collect(rules[1..], Bind(Rule(rules[0].protocol, Loaded(rules[0].upstreams)), rules[0].listen, m))
  }

  function ParseConfig(rules: seq<RuleConfig>): Option<map<Addr, Rule>>
  {
    Collect(rules, map[])
  }

  function Route(re: Regex, m: map<Addr, Rule>, addr: Addr, ctx: Context): Option<Upstream>
  {
    if addr in m then FindMatching(re, ctx, m[addr].upstreams) else None
  }

  // ---------------------------------------------------------------- what is chosen

  predicate Usable(re: Regex, ctx: Context, u: Upstream) {
    u.loads && Matches(re, ctx, u.matches)
  }

  /** `choice` is the first upstream in file order that loads and matches, if there is one. */
  ghost predicate IsFirstUsable(re: Regex, ctx: Context, upstreams: seq<Upstream>, choice: Option<Upstream>) {
    match choice
    case None => forall i :: 0 <= i < |upstreams| ==> !Usable(re, ctx, upstreams[i])
    case Some(u) =>
      exists i :: && 0 <= i < |upstreams| && upstreams[i] == u && Usable(re, ctx, u)
                  && forall j :: 0 <= j < i ==> !Usable(re, ctx, upstreams[j])
  }

  /** The last rule in the file that lists the address, or -1. */
  function LastListing(rules: seq<RuleConfig>, addr: Addr): (r: int)
    ensures -1 <= r < |rules|
    ensures r >= 0 ==> addr in rules[r].listen
    ensures forall j :: r < j < |rules| ==> addr !in rules[j].listen
  {
    if rules == [] then -1
    else
      var r := LastListing(rules[1..], addr);
      assert forall j :: 1 <= j < |rules| ==> rules[j] == rules[1..][j - 1];
      if r >= 0 then r + 1 else if addr in rules[0].listen then 0 else -1
  }

  lemma {:induction false} FindsFirstUsable(re: Regex, ctx: Context, upstreams: seq<Upstream>)
    ensures IsFirstUsable(re, ctx, upstreams, FindMatching(re, ctx, Loaded(upstreams)))
    decreases |upstreams|
  {
    if upstreams != [] {
      var rest := upstreams[1..];
      var choice := FindMatching(re, ctx, Loaded(upstreams));
      FindsFirstUsable(re, ctx, rest);
      if upstreams[0].loads {
        assert Loaded(upstreams)[1..] == Loaded(rest);
      } else {
        assert Loaded(upstreams) == Loaded(rest);
      }
      if Usable(re, ctx, upstreams[0]) {
        assert upstreams[0] == choice.value;
      } else if choice.Some? {
        var i :| && 0 <= i < |rest| && rest[i] == choice.value && Usable(re, ctx, rest[i])
                 && forall j :: 0 <= j < i ==> !Usable(re, ctx, rest[j]);
        assert upstreams[i + 1] == choice.value;
        forall j | 0 <= j < i + 1 ensures !Usable(re, ctx, upstreams[j]) {
          assert j == 0 || upstreams[j] == rest[j - 1];
        }
      } else {
        forall j | 0 <= j < |upstreams| ensures !Usable(re, ctx, upstreams[j]) {
          assert j == 0 || upstreams[j] == rest[j - 1];
        }
      }
    }
  }

  lemma {:induction false} LoadedIsEmptyIff(upstreams: seq<Upstream>)
    ensures Loaded(upstreams) == [] <==> forall i :: 0 <= i < |upstreams| ==> !upstreams[i].loads
    decreases |upstreams|
  {
    if upstreams != [] {
      LoadedIsEmptyIff(upstreams[1..]);
      assert forall i :: 1 <= i < |upstreams| ==> upstreams[i] == upstreams[1..][i - 1];
    }
  }

  lemma {:induction false} BindEnters(rule: Rule, addrs: seq<Addr>, m: map<Addr, Rule>, addr: Addr)
    ensures var m' := Bind(rule, addrs, m);
            if addr in addrs then addr in m' && m'[addr] == rule
            else (addr in m' <==> addr in m) && (addr in m ==> m'[addr] == m[addr])
    decreases |addrs|
  {
    if addrs != [] {
      BindEnters(rule, addrs[1..], m[addrs[0] := rule], addr);
    }
  }

  lemma {:induction false} CollectEntersLast(rules: seq<RuleConfig>, m: map<Addr, Rule>, addr: Addr)
    requires Collect(rules, m).Some?
    ensures var m', i := Collect(rules, m).value, LastListing(rules, addr);
            if i >= 0 then addr in m' && m'[addr] == Rule(rules[i].protocol, Loaded(rules[i].upstreams))
            else (addr in m' <==> addr in m) && (addr in m ==> m'[addr] == m[addr])
    decreases |rules|
  {
    if rules != [] {
      var rule := Rule(rules[0].protocol, Loaded(rules[0].upstreams));
      BindEnters(rule, rules[0].listen, m, addr);
      CollectEntersLast(rules[1..], Bind(rule, rules[0].listen, m), addr);
    }
  }

  /** A configuration is accepted exactly when every rule keeps an upstream that loads. */
  lemma {:induction false} ParsesIff(rules: seq<RuleConfig>, m: map<Addr, Rule>)
    ensures Collect(rules, m).Some? <==> forall i :: 0 <= i < |rules| ==> Loaded(rules[i].upstreams) != []
    decreases |rules|
  {
    if rules != [] {
      assert forall i :: 1 <= i < |rules| ==> rules[i] == rules[1..][i - 1];
      if Loaded(rules[0].upstreams) != [] {
        ParsesIff(rules[1..], Bind(Rule(rules[0].protocol, Loaded(rules[0].upstreams)), rules[0].listen, m));
      }
    }
  }

  /**
    For every accepted configuration, address and connection: the upstream chosen is the
    first in file order that loads and matches, in the last rule that lists the address.
   */
  lemma RoutesToFirstUsable(re: Regex, rules: seq<RuleConfig>, addr: Addr, ctx: Context)
    requires ParseConfig(rules).Some?
    ensures var choice, i := Route(re, ParseConfig(rules).value, addr, ctx), LastListing(rules, addr);
            if i >= 0 then IsFirstUsable(re, ctx, rules[i].upstreams, choice) else choice == None
  {
    CollectEntersLast(rules, map[], addr);
    var i := LastListing(rules, addr);
    if i >= 0 {
      FindsFirstUsable(re, ctx, rules[i].upstreams);
    }
  }

  // ---------------------------------------------------------------- what each kind of match means

  /** Whether a rule with a single upstream, which loads, routes a connection to it. */
  predicate Routed(re: Regex, m: Match, ctx: Context) {
    var u := Upstream("only", m, true);
    var table := ParseConfig([RuleConfig(Tls, [0], [u])]);
    table.Some? && Route(re, table.value, 0, ctx) == Some(u)
  }

  lemma RoutedIffMatches(re: Regex, m: Match, ctx: Context)
    ensures Routed(re, m, ctx) <==> Matches(re, ctx, m)
  {
    var u := Upstream("only", m, true);
    var rules := [RuleConfig(Tls, [0], [u])];
    LoadedCons(re, ctx, u, []);
    assert [u] + [] == [u] && [u][1..] == [] && rules[1..] == [];
    assert Loaded([u]) == [u];
    ParsesIff(rules, map[]);
    CollectEntersLast(rules, map[], 0);
    assert LastListing(rules, 0) == 0;
  }

  /**
    In terms of the connection: the name it asks for, whether the regular expression accepts
    that name, the protocols it offers, and the port it came to.
   */
  lemma RoutedByConnection(re: Regex, ctx: Context, text: string, port: nat)
    ensures Routed(re, Any, ctx) && !Routed(re, Never, ctx)
    ensures Routed(re, Sni(text), ctx) <==> ctx.sni == Some(text)
    ensures ctx.sni.None? ==> !Routed(re, SniRegex(text), ctx) && !Routed(re, SniRegexNot(text), ctx)
    ensures ctx.sni.Some? ==> (Routed(re, SniRegex(text), ctx) <==> !Routed(re, SniRegexNot(text), ctx))
    ensures ctx.sni.Some? ==> (Routed(re, SniRegex(text), ctx) <==> re(text, ctx.sni.value))
    ensures Routed(re, Alpn(text), ctx) <==>
            ctx.alpns.Some? && exists i :: 0 <= i < |ctx.alpns.value| && ctx.alpns.value[i] == text
    ensures Routed(re, DestinationPort(port), ctx) <==> ctx.port == port
  {
    RoutedIffMatches(re, Any, ctx);
    RoutedIffMatches(re, Never, ctx);
    RoutedIffMatches(re, Sni(text), ctx);
    RoutedIffMatches(re, SniRegex(text), ctx);
    RoutedIffMatches(re, SniRegexNot(text), ctx);
    RoutedIffMatches(re, Alpn(text), ctx);
    RoutedIffMatches(re, DestinationPort(port), ctx);
  }

  /** A connection without a name and without protocols is only routed by a catch-all or by its port. */
  lemma BareConnectionRouted(re: Regex, ctx: Context, m: Match)
    requires ctx.sni.None? && ctx.alpns.None?
    ensures Routed(re, m, ctx) <==> m == Any || m == DestinationPort(ctx.port)
  {
    RoutedIffMatches(re, m, ctx);
  }

  // ---------------------------------------------------------------- upstreams that cannot matter

  /** Leaves out upstreams that never match and everything behind the first loadable catch-all. */
  function Prune(upstreams: seq<Upstream>): seq<Upstream>
  {
    if upstreams == [] then []
    else if upstreams[0].matches == Never then Prune(upstreams[1..])
    else if upstreams[0].matches == Any && upstreams[0].loads then [upstreams[0]]
    else [upstreams[0]] + Prune(upstreams[1..])
  }

  /** Pruning never changes which upstream is chosen. */
  lemma {:induction false} PruningKeepsChoice(re: Regex, ctx: Context, upstreams: seq<Upstream>)
    ensures FindMatching(re, ctx, Loaded(Prune(upstreams))) == FindMatching(re, ctx, Loaded(upstreams))
    decreases |upstreams|
  {
    if upstreams != [] {
      var first, rest := upstreams[0], upstreams[1..];
      assert upstreams == [first] + rest;
      LoadedCons(re, ctx, first, rest);
      PruningKeepsChoice(re, ctx, rest);
      if first.matches != Never {
        LoadedCons(re, ctx, first, Prune(rest));
      }
    }
  }

  /** An upstream that loads and can match at all. */
  predicate CanServe(u: Upstream) { u.loads && u.matches != Never }

  predicate AnyCanServe(upstreams: seq<Upstream>) {
    exists i :: 0 <= i < |upstreams| && CanServe(upstreams[i])
  }

  lemma AnyCanServeCons(upstreams: seq<Upstream>)
    requires upstreams != []
    ensures AnyCanServe(upstreams) <==> CanServe(upstreams[0]) || AnyCanServe(upstreams[1..])
  {
    if AnyCanServe(upstreams) && !CanServe(upstreams[0]) {
      var i :| 0 <= i < |upstreams| && CanServe(upstreams[i]);
      assert CanServe(upstreams[1..][i - 1]);
    }
    if AnyCanServe(upstreams[1..]) {
      var i :| 0 <= i < |upstreams[1..]| && CanServe(upstreams[1..][i]);
      assert CanServe(upstreams[i + 1]);
    }
  }

  /** Pruning leaves an upstream that loads exactly when one loads and can match. */
  lemma {:induction false} PrunedLoadsIff(upstreams: seq<Upstream>)
    ensures Loaded(Prune(upstreams)) != [] <==> AnyCanServe(upstreams)
    ensures AnyCanServe(upstreams) ==> Loaded(upstreams) != []
    decreases |upstreams|
  {
    if upstreams != [] {
      AnyCanServeCons(upstreams);
      PrunedLoadsIff(upstreams[1..]);
      assert upstreams[0].matches != Never ==> Prune(upstreams)[0] == upstreams[0];
      assert ([upstreams[0]] + Prune(upstreams[1..]))[1..] == Prune(upstreams[1..]);
    }
  }

  function PruneAll(rules: seq<RuleConfig>): seq<RuleConfig>
  {
    seq(|rules|, i requires 0 <= i < |rules| => rules[i].(upstreams := Prune(rules[i].upstreams)))
  }

  /** A pruned configuration is accepted exactly when every rule has an upstream that loads and can match. */
  lemma PrunedParsesIff(rules: seq<RuleConfig>)
    ensures ParseConfig(PruneAll(rules)).Some? <==> forall i :: 0 <= i < |rules| ==> AnyCanServe(rules[i].upstreams)
    ensures ParseConfig(PruneAll(rules)).Some? ==> ParseConfig(rules).Some?
  {
    forall i | 0 <= i < |rules|
      ensures Loaded(PruneAll(rules)[i].upstreams) != [] <==> AnyCanServe(rules[i].upstreams)
      ensures AnyCanServe(rules[i].upstreams) ==> Loaded(rules[i].upstreams) != []
    {
      PrunedLoadsIff(rules[i].upstreams);
    }
    ParsesIff(rules, map[]);
    ParsesIff(PruneAll(rules), map[]);
  }

  /**
    As long as every rule has an upstream that loads and can match, pruning all rules leaves
    the configuration acceptable and routes every connection as before.
   */
  lemma PruningKeepsRoutes(re: Regex, rules: seq<RuleConfig>, addr: Addr, ctx: Context)
    requires forall i :: 0 <= i < |rules| ==> AnyCanServe(rules[i].upstreams)
    ensures ParseConfig(rules).Some? && ParseConfig(PruneAll(rules)).Some?
    ensures Route(re, ParseConfig(PruneAll(rules)).value, addr, ctx) == Route(re, ParseConfig(rules).value, addr, ctx)
  {
    var pruned := PruneAll(rules);
    PrunedParsesIff(rules);
    CollectEntersLast(rules, map[], addr);
    CollectEntersLast(pruned, map[], addr);
    var i := LastListing(rules, addr);
    assert forall j :: 0 <= j < |rules| ==> pruned[j].listen == rules[j].listen;
    assert i == LastListing(pruned, addr);
    if i >= 0 {
      PruningKeepsChoice(re, ctx, rules[i].upstreams);
    }
  }

  lemma LoadedCons(re: Regex, ctx: Context, u: Upstream, rest: seq<Upstream>)
    ensures FindMatching(re, ctx, Loaded([u] + rest)) ==
            if Usable(re, ctx, u) then Some(u) else FindMatching(re, ctx, Loaded(rest))
  {
    assert ([u] + rest)[1..] == rest;
    if u.loads {
      assert ([u] + Loaded(rest))[1..] == Loaded(rest);
    } else {
      assert [] + Loaded(rest) == Loaded(rest);
    }
  }
}
