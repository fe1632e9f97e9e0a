/** Firewall command construction: the iptables and nftables command lines
    built from a rule record, the classification of the installed backend
    and its cache, and the existence check run before an append. Each
    command is read back word by word (the way a shell splits it) to show
    which fields of the rule it carries. */
module Iptables {
  import opened Wrappers
  import opened Text

  /** One rule: action (A, C, D), table, chain, match on source or
      destination IP, interface direction and name, jump target and the
      address a SNAT/DNAT target translates to. */
  datatype IptablesRule = IptablesRule(
    action: string, table: string, chain: string,
    matchType: string, matchValue: string,
    ifaceType: string, ifaceName: string,
    jumpTarget: string, translateIp: string)

  // ------------------------------------------------------------------ words

  predicate SpaceFree(w: string) {
    forall i :: 0 <= i < |w| ==> w[i] != ' '
  }

  predicate AllSpaceFree(ws: seq<string>) {
    forall k :: 0 <= k < |ws| ==> SpaceFree(ws[k])
  }

  /** Each word preceded by one space: a command line is its first word
      followed by the rest of its words spaced out. */
  function Spaced(ws: seq<string>): string {
    if ws == [] then "" else " " + (ws[0] + Spaced(ws[1..]))
  }

  /** A command line cut at every space; neighbouring spaces give an empty
      word, so no word is lost. */
  function Split(s: string): (r: seq<string>)
    ensures r != []
  {
    if s == [] then [""]
    else if s[0] == ' ' then [""] + Split(s[1..])
    else
      var t := Split(s[1..]);
      [[s[0]] + t[0]] + t[1..]
  }

  /** A word without spaces glues onto the first word of what follows it. */
  lemma {:induction false} SplitWord(w: string, t: string)
    requires SpaceFree(w)
    ensures Split(w + t) == [w + Split(t)[0]] + Split(t)[1..]
  {
    if w != [] {
      assert w[0] != ' ';
      assert (w + t)[0] == w[0];
      assert (w + t)[1..] == w[1..] + t;
      assert SpaceFree(w[1..]) by {
        forall i | 0 <= i < |w[1..]| ensures w[1..][i] != ' ' { assert w[1..][i] == w[i + 1]; }
      }
      SplitWord(w[1..], t);
      var u := Split(w[1..] + t);
      assert u == [w[1..] + Split(t)[0]] + Split(t)[1..];
      assert u[1..] == Split(t)[1..];
      assert [w[0]] + (w[1..] + Split(t)[0]) == w + Split(t)[0];
    } else {
      assert w + t == t;
      assert Split(t) == [Split(t)[0]] + Split(t)[1..];
      assert w + Split(t)[0] == Split(t)[0];
    }
  }

  /** Splitting a first word and spaced-out words gives the words back. */
  lemma {:induction false} SplitSpaced(w: string, ws: seq<string>)
    requires SpaceFree(w) && AllSpaceFree(ws)
    ensures Split(w + Spaced(ws)) == [w] + ws
    decreases |ws|
  {
    if ws == [] {
      SplitWord(w, "");
      assert w + "" == w;
    } else {
      var t := ws[0] + Spaced(ws[1..]);
      SplitSpaced(ws[0], ws[1..]);
      SplitWord(w, " " + t);
      assert (" " + t)[1..] == t;
      assert Split(" " + t) == [""] + ws;
      assert w + "" == w;
    }
  }

  lemma {:induction false} SpacedAppend(a: seq<string>, b: seq<string>)
    ensures Spaced(a + b) == Spaced(a) + Spaced(b)
  {
    if a != [] {
      assert (a + b)[0] == a[0];
      assert (a + b)[1..] == a[1..] + b;
      SpacedAppend(a[1..], b);
    } else {
      assert a + b == b;
    }
  }

  lemma Spaced1(a: string)
    ensures Spaced([a]) == " " + a
  {
    assert [a][1..] == [];
  }

  lemma Spaced2(a: string, b: string)
    ensures Spaced([a, b]) == " " + (a + (" " + b))
  {
    assert [a, b][1..] == [b];
    Spaced1(b);
  }

  /** The spaced words of a command line after its first four words. */
  lemma Spaced4(w0: string, w1: string, w2: string, w3: string, rest: seq<string>)
    ensures Spaced([w0, w1, w2, w3] + rest)
      == " " + (w0 + (" " + (w1 + (" " + (w2 + (" " + (w3 + Spaced(rest))))))))
  {
    var ws := [w0, w1, w2, w3] + rest;
    var ws1, ws2, ws3 := [w1, w2, w3] + rest, [w2, w3] + rest, [w3] + rest;
    assert ws[1..] == ws1 && ws1[1..] == ws2 && ws2[1..] == ws3 && ws3[1..] == rest;
    assert Spaced(ws3) == " " + (w3 + Spaced(rest));
    assert Spaced(ws2) == " " + (w2 + Spaced(ws3));
    assert Spaced(ws1) == " " + (w1 + Spaced(ws2));
  }

  lemma Spaced3(a: string, b: string, c: string)
    ensures Spaced([a, b, c]) == " " + (a + (" " + (b + (" " + c))))
  {
    assert [a, b, c][1..] == [b, c];
    Spaced2(b, c);
  }

  /** A flag clause " <x> " followed by its value is the words x, b. */
  lemma FlagValue(p: string, x: string, b: string)
    requires p == " " + (x + " ")
    ensures p + b == Spaced([x, b])
  {
    Spaced2(x, b);
  }

  /** " <x> " k " " v is the words x, k, v. */
  lemma FlagKindValue(p: string, x: string, k: string, v: string)
    requires p == " " + (x + " ")
    ensures p + k + " " + v == Spaced([x, k, v])
  {
    Spaced3(x, k, v);
  }

  /** " " k " " v is the words k, v. */
  lemma KindValue(k: string, v: string)
    ensures " " + k + " " + v == Spaced([k, v])
  {
    Spaced2(k, v);
  }

  /** " <x> <y> " followed by a value is the words x, y, b. */
  lemma TwoFlagsValue(p: string, x: string, y: string, b: string)
    requires p == " " + (x + (" " + (y + " ")))
    ensures p + b == Spaced([x, y, b])
  {
    Spaced3(x, y, b);
  }

  /** " <x> " a " <y> " b is the words x, a, y, b. */
  lemma FlagValueFlagValue(p: string, x: string, a: string, q: string, y: string, b: string)
    requires p == " " + (x + " ") && q == " " + (y + " ")
    ensures p + a + q + b == Spaced([x, a, y, b])
  {
    Spaced4(x, a, y, b, []);
    assert [x, a, y, b] + [] == [x, a, y, b];
    FlagValue(q, y, b);
    Spaced2(y, b);
    assert p + a + q + b == p + (a + (q + b));
  }

  // ---------------------------------------------------------------- iptables

  predicate HasMatch(rule: IptablesRule) {
    rule.matchType != "" && rule.matchValue != ""
  }

  function IptablesMatch(rule: IptablesRule): string {
    if HasMatch(rule) then (if rule.matchType == "SIP" then " -s " else " -d ") + rule.matchValue else ""
  }

  function IptablesIface(rule: IptablesRule): string {
    if rule.ifaceName != "" then (if rule.ifaceType == "in" then " -i " else " -o ") + rule.ifaceName else ""
  }

  function IptablesJump(rule: IptablesRule): string {
    if rule.jumpTarget == "" then ""
    else if rule.translateIp != "" && rule.jumpTarget == "SNAT" then " -j " + rule.jumpTarget + " --to-source " + rule.translateIp
    else if rule.translateIp != "" && rule.jumpTarget == "DNAT" then " -j " + rule.jumpTarget + " --to-destination " + rule.translateIp
    else " -j " + rule.jumpTarget
  }

  /** The clauses after the chain, each present only when its fields are set. */
  function IptablesOptions(rule: IptablesRule): string {
    IptablesMatch(rule) + (IptablesIface(rule) + IptablesJump(rule))
  }

  /** construct_iptables_command: "iptables -t <table> -<action> <chain>",
      then the match, interface and jump clauses. IptablesReadsBack says
      what the line carries. */
  function ConstructIptablesCommand(rule: IptablesRule): string {
    "iptables -t " + (rule.table + (" -" + (rule.action + (" " + (rule.chain + IptablesOptions(rule))))))
  }

  function IptablesMatchArgs(rule: IptablesRule): seq<string> {
    if HasMatch(rule) then [if rule.matchType == "SIP" then "-s" else "-d", rule.matchValue] else []
  }

  function IptablesIfaceArgs(rule: IptablesRule): seq<string> {
    if rule.ifaceName != "" then [if rule.ifaceType == "in" then "-i" else "-o", rule.ifaceName] else []
  }

  function IptablesJumpArgs(rule: IptablesRule): seq<string> {
    if rule.jumpTarget == "" then []
    else if rule.translateIp != "" && rule.jumpTarget == "SNAT" then ["-j", rule.jumpTarget, "--to-source", rule.translateIp]
    else if rule.translateIp != "" && rule.jumpTarget == "DNAT" then ["-j", rule.jumpTarget, "--to-destination", rule.translateIp]
    else ["-j", rule.jumpTarget]
  }

  function IptablesOptionArgs(rule: IptablesRule): seq<string> {
    IptablesMatchArgs(rule) + (IptablesIfaceArgs(rule) + IptablesJumpArgs(rule))
  }

  /** The part of a rule an iptables command carries: match fields only
      when both are set (any type but SIP reads as DIP), the interface
      direction only with a name (anything but "in" reads as "out"), and
      the translation address only for a SNAT or DNAT jump. */
  function NormalIptables(rule: IptablesRule): IptablesRule {
    IptablesRule(
      rule.action, rule.table, rule.chain,
      if HasMatch(rule) then (if rule.matchType == "SIP" then "SIP" else "DIP") else "",
      if HasMatch(rule) then rule.matchValue else "",
      if rule.ifaceName != "" then (if rule.ifaceType == "in" then "in" else "out") else "",
      rule.ifaceName, rule.jumpTarget,
      if rule.translateIp != "" && (rule.jumpTarget == "SNAT" || rule.jumpTarget == "DNAT") then rule.translateIp else "")
  }

  predicate RuleSpaceFree(rule: IptablesRule) {
    SpaceFree(rule.action) && SpaceFree(rule.table) && SpaceFree(rule.chain) && SpaceFree(rule.matchValue)
    && SpaceFree(rule.ifaceName) && SpaceFree(rule.jumpTarget) && SpaceFree(rule.translateIp)
  }

  /** Reading an iptables command: the fixed head, then the optional match,
      interface and jump clauses in that order. */
  function ParseIptablesCommand(s: string): Option<IptablesRule> {
    var ws := Split(s);
    if |ws| < 5 || ws[0] != "iptables" || ws[1] != "-t" || ws[3] == [] || ws[3][0] != '-' then None
    else ParseIptablesMatch(IptablesRule(ws[3][1..], ws[2], ws[4], "", "", "", "", "", ""), ws[5..])
  }

  function ParseIptablesMatch(rule: IptablesRule, ws: seq<string>): Option<IptablesRule> {
    if |ws| >= 2 && (ws[0] == "-s" || ws[0] == "-d") then
      ParseIptablesIface(rule.(matchType := if ws[0] == "-s" then "SIP" else "DIP", matchValue := ws[1]), ws[2..])
    else ParseIptablesIface(rule, ws)
  }

  function ParseIptablesIface(rule: IptablesRule, ws: seq<string>): Option<IptablesRule> {
    if |ws| >= 2 && (ws[0] == "-i" || ws[0] == "-o") then
      ParseIptablesJump(rule.(ifaceType := if ws[0] == "-i" then "in" else "out", ifaceName := ws[1]), ws[2..])
    else ParseIptablesJump(rule, ws)
  }

  function ParseIptablesJump(rule: IptablesRule, ws: seq<string>): Option<IptablesRule> {
    if ws == [] then Some(rule)
    else if |ws| == 2 && ws[0] == "-j" then Some(rule.(jumpTarget := ws[1]))
    else if |ws| == 4 && ws[0] == "-j" && (ws[2] == "--to-source" || ws[2] == "--to-destination") then
      Some(rule.(jumpTarget := ws[1], translateIp := ws[3]))
    else None
  }

  lemma IptablesMatchWords(rule: IptablesRule)
    ensures IptablesMatch(rule) == Spaced(IptablesMatchArgs(rule))
  {
    if HasMatch(rule) {
      if rule.matchType == "SIP" { FlagValue(" -s ", "-s", rule.matchValue); }
      else { FlagValue(" -d ", "-d", rule.matchValue); }
    }
  }

  lemma IptablesIfaceWords(rule: IptablesRule)
    ensures IptablesIface(rule) == Spaced(IptablesIfaceArgs(rule))
  {
    if rule.ifaceName != "" {
      if rule.ifaceType == "in" { FlagValue(" -i ", "-i", rule.ifaceName); }
      else { FlagValue(" -o ", "-o", rule.ifaceName); }
    }
  }

  lemma IptablesJumpWords(rule: IptablesRule)
    ensures IptablesJump(rule) == Spaced(IptablesJumpArgs(rule))
  {
    var t, ip := rule.jumpTarget, rule.translateIp;
    if t == "" {
    } else if ip != "" && t == "SNAT" {
      FlagValueFlagValue(" -j ", "-j", t, " --to-source ", "--to-source", ip);
    } else if ip != "" && t == "DNAT" {
      FlagValueFlagValue(" -j ", "-j", t, " --to-destination ", "--to-destination", ip);
    } else {
      FlagValue(" -j ", "-j", t);
    }
  }

  lemma IptablesOptionWords(rule: IptablesRule)
    ensures IptablesOptions(rule) == Spaced(IptablesOptionArgs(rule))
  {
    IptablesMatchWords(rule);
    IptablesIfaceWords(rule);
    IptablesJumpWords(rule);
    SpacedAppend(IptablesIfaceArgs(rule), IptablesJumpArgs(rule));
    SpacedAppend(IptablesMatchArgs(rule), IptablesIfaceArgs(rule) + IptablesJumpArgs(rule));
  }

  /** A command line whose fixed head h is the words w0, w1, followed by
      four more words and spaced-out option words. */
  lemma HeadLine(h: string, w0: string, w1: string, table: string, x: string, chain: string, opts: seq<string>)
    requires h == w0 + (" " + (w1 + " "))
    ensures h + (table + (" " + (x + (" " + (chain + Spaced(opts))))))
      == w0 + Spaced([w1, table, x, chain] + opts)
  {
    Spaced4(w1, table, x, chain, opts);
  }

  lemma IptablesHead()
    ensures "iptables -t " == "iptables" + (" " + ("-t" + " "))
  {
  }

  lemma NftHead()
    ensures "nft add rule ip " == "nft" + (" " + ("add" + (" " + ("rule" + (" " + ("ip" + " "))))))
  {
  }

  /** " -" before the action is a space and the word "-<action>". */
  lemma DashWord(a: string, r: string)
    ensures " -" + (a + r) == " " + (("-" + a) + r)
  {
  }

  /** The words of the iptables command. */
  function IptablesArgs(rule: IptablesRule): seq<string> {
    ["iptables"] + (["-t", rule.table, "-" + rule.action, rule.chain] + IptablesOptionArgs(rule))
  }

  lemma IptablesWords(rule: IptablesRule)
    ensures ConstructIptablesCommand(rule) == "iptables" + Spaced(IptablesArgs(rule)[1..])
  {
    DashWord(rule.action, " " + (rule.chain + IptablesOptions(rule)));
    IptablesOptionWords(rule);
    IptablesHead();
    HeadLine("iptables -t ", "iptables", "-t", rule.table, "-" + rule.action, rule.chain, IptablesOptionArgs(rule));
  }

  lemma AllSpaceFreeAppend(a: seq<string>, b: seq<string>)
    requires AllSpaceFree(a) && AllSpaceFree(b)
    ensures AllSpaceFree(a + b)
  {
    forall k | 0 <= k < |a + b| ensures SpaceFree((a + b)[k]) {
      if k < |a| { assert (a + b)[k] == a[k]; } else { assert (a + b)[k] == b[k - |a|]; }
    }
  }

  lemma DashSpaceFree(a: string)
    requires SpaceFree(a)
    ensures SpaceFree("-" + a)
  {
    forall i | 0 <= i < |"-" + a| ensures ("-" + a)[i] != ' ' {
      if i > 0 { assert ("-" + a)[i] == a[i - 1]; }
    }
  }

  lemma IptablesOptionArgsSpaceFree(rule: IptablesRule)
    requires RuleSpaceFree(rule)
    ensures AllSpaceFree(IptablesOptionArgs(rule))
  {
    var m, i, j := IptablesMatchArgs(rule), IptablesIfaceArgs(rule), IptablesJumpArgs(rule);
    assert AllSpaceFree(m);
    assert AllSpaceFree(i);
    assert AllSpaceFree(j);
    AllSpaceFreeAppend(i, j);
    AllSpaceFreeAppend(m, i + j);
  }

  lemma IptablesArgsSpaceFree(rule: IptablesRule)
    requires RuleSpaceFree(rule)
    ensures AllSpaceFree(IptablesArgs(rule)[1..])
  {
    DashSpaceFree(rule.action);
    IptablesOptionArgsSpaceFree(rule);
    AllSpaceFreeAppend(["-t", rule.table, "-" + rule.action, rule.chain], IptablesOptionArgs(rule));
  }

  /** The shell sees exactly the words of the iptables command. */
  lemma IptablesSplit(rule: IptablesRule)
    requires RuleSpaceFree(rule)
    ensures Split(ConstructIptablesCommand(rule)) == IptablesArgs(rule)
  {
    IptablesWords(rule);
    IptablesArgsSpaceFree(rule);
    SplitSpaced("iptables", IptablesArgs(rule)[1..]);
  }

  lemma ParseIptablesMatchStep(r: IptablesRule, rule: IptablesRule)
    ensures ParseIptablesMatch(r, IptablesOptionArgs(rule))
      == ParseIptablesIface(
           if HasMatch(rule) then r.(matchType := if rule.matchType == "SIP" then "SIP" else "DIP", matchValue := rule.matchValue) else r,
           IptablesIfaceArgs(rule) + IptablesJumpArgs(rule))
  {
    var rest := IptablesIfaceArgs(rule) + IptablesJumpArgs(rule);
    if HasMatch(rule) {
      assert IptablesOptionArgs(rule)[2..] == rest;
    } else {
      assert IptablesOptionArgs(rule) == rest;
    }
  }

  lemma ParseIptablesIfaceStep(r: IptablesRule, rule: IptablesRule)
    ensures ParseIptablesIface(r, IptablesIfaceArgs(rule) + IptablesJumpArgs(rule))
      == ParseIptablesJump(
           if rule.ifaceName != "" then r.(ifaceType := if rule.ifaceType == "in" then "in" else "out", ifaceName := rule.ifaceName) else r,
           IptablesJumpArgs(rule))
  {
    var i, j := IptablesIfaceArgs(rule), IptablesJumpArgs(rule);
    if rule.ifaceName != "" {
      assert (i + j)[2..] == j;
    } else {
      assert i + j == j;
    }
  }

  lemma ParseIptablesJumpStep(r: IptablesRule, rule: IptablesRule)
    requires r.jumpTarget == "" && r.translateIp == ""
    ensures ParseIptablesJump(r, IptablesJumpArgs(rule))
      == Some(r.(jumpTarget := rule.jumpTarget,
                 translateIp := if rule.translateIp != "" && (rule.jumpTarget == "SNAT" || rule.jumpTarget == "DNAT") then rule.translateIp else ""))
  {
  }

  /** Every iptables command reads back as the part of its rule it carries:
      two rules give the same command exactly when they agree on that part
      (IptablesCommandInjective). */
  lemma IptablesReadsBack(rule: IptablesRule)
    requires RuleSpaceFree(rule)
    ensures ParseIptablesCommand(ConstructIptablesCommand(rule)) == Some(NormalIptables(rule))
  {
    IptablesSplit(rule);
    IptablesHeadParse(rule, ConstructIptablesCommand(rule));
    var r0 := IptablesRule(rule.action, rule.table, rule.chain, "", "", "", "", "", "");
    ParseIptablesMatchStep(r0, rule);
    var r1 := if HasMatch(rule) then r0.(matchType := if rule.matchType == "SIP" then "SIP" else "DIP", matchValue := rule.matchValue) else r0;
    ParseIptablesIfaceStep(r1, rule);
    var r2 := if rule.ifaceName != "" then r1.(ifaceType := if rule.ifaceType == "in" then "in" else "out", ifaceName := rule.ifaceName) else r1;
    ParseIptablesJumpStep(r2, rule);
  }

  lemma IptablesHeadParse(rule: IptablesRule, s: string)
    requires Split(s) == IptablesArgs(rule)
    ensures ParseIptablesCommand(s) == ParseIptablesMatch(IptablesRule(rule.action, rule.table, rule.chain, "", "", "", "", "", ""), IptablesOptionArgs(rule))
  {
    var ws := IptablesArgs(rule);
    assert ws[0] == "iptables" && ws[1] == "-t" && ws[2] == rule.table && ws[4] == rule.chain;
    assert ws[3] == "-" + rule.action && ws[3][0] == '-' && ws[3][1..] == rule.action;
    assert ws[5..] == IptablesOptionArgs(rule);
  }

  /** The command of a rule is the command of its normal form. */
  lemma IptablesOfNormal(rule: IptablesRule)
    ensures ConstructIptablesCommand(NormalIptables(rule)) == ConstructIptablesCommand(rule)
  {
    var n := NormalIptables(rule);
    assert IptablesMatch(n) == IptablesMatch(rule);
    assert IptablesIface(n) == IptablesIface(rule);
    assert IptablesJump(n) == IptablesJump(rule);
  }

  lemma IptablesCommandInjective(a: IptablesRule, b: IptablesRule)
    requires RuleSpaceFree(a) && RuleSpaceFree(b)
    ensures ConstructIptablesCommand(a) == ConstructIptablesCommand(b) <==> NormalIptables(a) == NormalIptables(b)
  {
    IptablesReadsBack(a);
    IptablesReadsBack(b);
    IptablesOfNormal(a);
    IptablesOfNormal(b);
  }

  // ----------------------------------------------------------------- nftables

  function NftMatch(rule: IptablesRule): string {
    if HasMatch(rule) then " ip " + (if rule.matchType == "SIP" then "saddr" else "daddr") + " " + rule.matchValue else ""
  }

  function NftIface(rule: IptablesRule): string {
    if rule.ifaceName != "" then " " + (if rule.ifaceType == "in" then "iif" else "oif") + " " + rule.ifaceName else ""
  }

  function NftJump(rule: IptablesRule): string {
    if rule.jumpTarget == "" then ""
    else if rule.jumpTarget == "SNAT" then " snat to " + rule.translateIp
    else if rule.jumpTarget == "DNAT" then " dnat to " + rule.translateIp
    else " " + rule.jumpTarget
  }

  function NftOptions(rule: IptablesRule): string {
    NftMatch(rule) + (NftIface(rule) + NftJump(rule))
  }

  /** convert_to_nftables: "nft add rule ip <table> <chain>", then
      "ip saddr|daddr <value>", "iif|oif <name>" and "snat to",
      "dnat to" or the raw target; the rule's action is not used.
      NftReadsBack says what the line carries. */
  function ConvertToNftables(rule: IptablesRule): string {
    "nft add rule ip " + (rule.table + (" " + (rule.chain + NftOptions(rule))))
  }

  function NftMatchArgs(rule: IptablesRule): seq<string> {
    if HasMatch(rule) then ["ip", if rule.matchType == "SIP" then "saddr" else "daddr", rule.matchValue] else []
  }

  function NftIfaceArgs(rule: IptablesRule): seq<string> {
    if rule.ifaceName != "" then [if rule.ifaceType == "in" then "iif" else "oif", rule.ifaceName] else []
  }

  function NftJumpArgs(rule: IptablesRule): seq<string> {
    if rule.jumpTarget == "" then []
    else if rule.jumpTarget == "SNAT" then ["snat", "to", rule.translateIp]
    else if rule.jumpTarget == "DNAT" then ["dnat", "to", rule.translateIp]
    else [rule.jumpTarget]
  }

  function NftOptionArgs(rule: IptablesRule): seq<string> {
    NftMatchArgs(rule) + (NftIfaceArgs(rule) + NftJumpArgs(rule))
  }

  /** The words of the nft command. */
  function NftArgs(rule: IptablesRule): seq<string> {
    ["nft"] + (["add", "rule", "ip", rule.table] + ([rule.chain] + NftOptionArgs(rule)))
  }

  /** The part of a rule an nft command carries: no action, the match and
      interface as for iptables, and the translation address for any SNAT
      or DNAT jump, empty or not. */
  function NormalNft(rule: IptablesRule): IptablesRule {
    IptablesRule(
      "", rule.table, rule.chain,
      if HasMatch(rule) then (if rule.matchType == "SIP" then "SIP" else "DIP") else "",
      if HasMatch(rule) then rule.matchValue else "",
      if rule.ifaceName != "" then (if rule.ifaceType == "in" then "in" else "out") else "",
      rule.ifaceName, rule.jumpTarget,
      if rule.jumpTarget == "SNAT" || rule.jumpTarget == "DNAT" then rule.translateIp else "")
  }

  function ParseNftCommand(s: string): Option<IptablesRule> {
    var ws := Split(s);
    if |ws| < 6 || ws[0] != "nft" || ws[1] != "add" || ws[2] != "rule" || ws[3] != "ip" then None
    else ParseNftMatch(IptablesRule("", ws[4], ws[5], "", "", "", "", "", ""), ws[6..])
  }

  function ParseNftMatch(rule: IptablesRule, ws: seq<string>): Option<IptablesRule> {
    if |ws| >= 3 && ws[0] == "ip" && (ws[1] == "saddr" || ws[1] == "daddr") then
      ParseNftIface(rule.(matchType := if ws[1] == "saddr" then "SIP" else "DIP", matchValue := ws[2]), ws[3..])
    else ParseNftIface(rule, ws)
  }

  function ParseNftIface(rule: IptablesRule, ws: seq<string>): Option<IptablesRule> {
    if |ws| >= 2 && (ws[0] == "iif" || ws[0] == "oif") then
      ParseNftJump(rule.(ifaceType := if ws[0] == "iif" then "in" else "out", ifaceName := ws[1]), ws[2..])
    else ParseNftJump(rule, ws)
  }

  function ParseNftJump(rule: IptablesRule, ws: seq<string>): Option<IptablesRule> {
    if ws == [] then Some(rule)
    else if |ws| == 1 then Some(rule.(jumpTarget := ws[0]))
    else if |ws| == 3 && (ws[0] == "snat" || ws[0] == "dnat") && ws[1] == "to" then
      Some(rule.(jumpTarget := if ws[0] == "snat" then "SNAT" else "DNAT", translateIp := ws[2]))
    else None
  }

  lemma NftMatchWords(rule: IptablesRule)
    ensures NftMatch(rule) == Spaced(NftMatchArgs(rule))
  {
    if HasMatch(rule) { FlagKindValue(" ip ", "ip", NftMatchArgs(rule)[1], rule.matchValue); }
  }

  lemma NftIfaceWords(rule: IptablesRule)
    ensures NftIface(rule) == Spaced(NftIfaceArgs(rule))
  {
    if rule.ifaceName != "" { KindValue(NftIfaceArgs(rule)[0], rule.ifaceName); }
  }

  lemma NftJumpWords(rule: IptablesRule)
    ensures NftJump(rule) == Spaced(NftJumpArgs(rule))
  {
    var t, ip := rule.jumpTarget, rule.translateIp;
    if t == "" {
    } else if t == "SNAT" {
      TwoFlagsValue(" snat to ", "snat", "to", ip);
    } else if t == "DNAT" {
      TwoFlagsValue(" dnat to ", "dnat", "to", ip);
    } else {
      Spaced1(t);
    }
  }

  lemma NftOptionWords(rule: IptablesRule)
    ensures NftOptions(rule) == Spaced(NftOptionArgs(rule))
  {
    NftMatchWords(rule);
    NftIfaceWords(rule);
    NftJumpWords(rule);
    SpacedAppend(NftIfaceArgs(rule), NftJumpArgs(rule));
    SpacedAppend(NftMatchArgs(rule), NftIfaceArgs(rule) + NftJumpArgs(rule));
  }

  /** A command line whose fixed head h is the words w0 .. w3, followed
      by two more words and spaced-out option words. */
  lemma NftHeadLine(h: string, w0: string, w1: string, w2: string, w3: string, table: string, chain: string, opts: seq<string>)
    requires h == w0 + (" " + (w1 + (" " + (w2 + (" " + (w3 + " "))))))
    ensures h + (table + (" " + (chain + Spaced(opts)))) == w0 + Spaced([w1, w2, w3, table] + ([chain] + opts))
  {
    Spaced4(w1, w2, w3, table, [chain] + opts);
    assert ([chain] + opts)[1..] == opts;
  }

  lemma NftWords(rule: IptablesRule)
    ensures ConvertToNftables(rule) == "nft" + Spaced(NftArgs(rule)[1..])
  {
    NftOptionWords(rule);
    NftHead();
    NftHeadLine("nft add rule ip ", "nft", "add", "rule", "ip", rule.table, rule.chain, NftOptionArgs(rule));
  }

  lemma NftArgsSpaceFree(rule: IptablesRule)
    requires RuleSpaceFree(rule)
    ensures AllSpaceFree(NftArgs(rule)[1..])
  {
    var m, i, j := NftMatchArgs(rule), NftIfaceArgs(rule), NftJumpArgs(rule);
    assert AllSpaceFree(m);
    assert AllSpaceFree(i);
    assert AllSpaceFree(j);
    AllSpaceFreeAppend(i, j);
    AllSpaceFreeAppend(m, i + j);
    AllSpaceFreeAppend([rule.chain], m + (i + j));
    AllSpaceFreeAppend(["add", "rule", "ip", rule.table], [rule.chain] + (m + (i + j)));
  }

  /** The shell sees exactly the words of the nft command. */
  lemma NftSplit(rule: IptablesRule)
    requires RuleSpaceFree(rule)
    ensures Split(ConvertToNftables(rule)) == NftArgs(rule)
  {
    NftWords(rule);
    NftArgsSpaceFree(rule);
    SplitSpaced("nft", NftArgs(rule)[1..]);
  }

  lemma ParseNftMatchStep(r: IptablesRule, rule: IptablesRule)
    ensures ParseNftMatch(r, NftOptionArgs(rule))
      == ParseNftIface(
           if HasMatch(rule) then r.(matchType := if rule.matchType == "SIP" then "SIP" else "DIP", matchValue := rule.matchValue) else r,
           NftIfaceArgs(rule) + NftJumpArgs(rule))
  {
    var rest := NftIfaceArgs(rule) + NftJumpArgs(rule);
    if HasMatch(rule) {
      assert NftOptionArgs(rule)[3..] == rest;
    } else {
      assert NftOptionArgs(rule) == rest;
      if rest != [] && |rest| >= 3 {
        assert rest[0] != "ip";
      }
    }
  }

  lemma ParseNftIfaceStep(r: IptablesRule, rule: IptablesRule)
    ensures ParseNftIface(r, NftIfaceArgs(rule) + NftJumpArgs(rule))
      == ParseNftJump(
           if rule.ifaceName != "" then r.(ifaceType := if rule.ifaceType == "in" then "in" else "out", ifaceName := rule.ifaceName) else r,
           NftJumpArgs(rule))
  {
    var i, j := NftIfaceArgs(rule), NftJumpArgs(rule);
    if rule.ifaceName != "" {
      assert (i + j)[2..] == j;
    } else {
      assert i + j == j;
    }
  }

  lemma ParseNftJumpStep(r: IptablesRule, rule: IptablesRule)
    requires r.jumpTarget == "" && r.translateIp == ""
    ensures ParseNftJump(r, NftJumpArgs(rule))
      == Some(r.(jumpTarget := rule.jumpTarget,
                 translateIp := if rule.jumpTarget == "SNAT" || rule.jumpTarget == "DNAT" then rule.translateIp else ""))
  {
  }

  lemma NftHeadParse(rule: IptablesRule, s: string)
    requires Split(s) == NftArgs(rule)
    ensures ParseNftCommand(s) == ParseNftMatch(IptablesRule("", rule.table, rule.chain, "", "", "", "", "", ""), NftOptionArgs(rule))
  {
    var ws := NftArgs(rule);
    assert ws[0] == "nft" && ws[1] == "add" && ws[2] == "rule" && ws[3] == "ip";
    assert ws[4] == rule.table && ws[5] == rule.chain;
    assert ws[6..] == NftOptionArgs(rule);
  }

  /** Every nft command reads back as the part of its rule it carries. */
  lemma NftReadsBack(rule: IptablesRule)
    requires RuleSpaceFree(rule)
    ensures ParseNftCommand(ConvertToNftables(rule)) == Some(NormalNft(rule))
  {
    NftSplit(rule);
    NftHeadParse(rule, ConvertToNftables(rule));
    var r0 := IptablesRule("", rule.table, rule.chain, "", "", "", "", "", "");
    ParseNftMatchStep(r0, rule);
    var r1 := if HasMatch(rule) then r0.(matchType := if rule.matchType == "SIP" then "SIP" else "DIP", matchValue := rule.matchValue) else r0;
    ParseNftIfaceStep(r1, rule);
    var r2 := if rule.ifaceName != "" then r1.(ifaceType := if rule.ifaceType == "in" then "in" else "out", ifaceName := rule.ifaceName) else r1;
    ParseNftJumpStep(r2, rule);
  }

  // ------------------------------------------------------------ check command

  const AppendFlag := " -A "

  /** execute_iptables_command's existence check as corrected: the first
      " -A " of the command becomes " -C "; without one the command is
      left as it is. CheckOfAppend shows it turns an append into the
      matching check. */
  function CheckCommand(command: string): (r: string)
    ensures |r| == |command|
    ensures Find(command, AppendFlag).None? ==> r == command
    ensures Find(command, AppendFlag).Some? ==>
      r[Find(command, AppendFlag).value + 2] == 'C' &&
      forall i :: 0 <= i < |r| && i != Find(command, AppendFlag).value + 2 ==> r[i] == command[i]
  {
    match Find(command, AppendFlag)
    case None => command
    case Some(p) => command[..p + 2] + "C" + command[p + 3..]
  }

  /** execute_iptables_command's existence check as written: it replaces
      the character one past the start of " -A ", which is the '-'. */
  function CheckCommandAsWritten(command: string): (r: string)
    ensures |r| == |command|
    ensures Find(command, AppendFlag).None? ==> r == command
    ensures Find(command, AppendFlag).Some? ==>
      r[Find(command, AppendFlag).value + 1] == 'C' &&
      forall i :: 0 <= i < |r| && i != Find(command, AppendFlag).value + 1 ==> r[i] == command[i]
  {
    match Find(command, AppendFlag)
    case None => command
    case Some(p) => command[..p + 1] + "C" + command[p + 2..]
  }

  /** One differing character rules out an occurrence of " -A ". */
  lemma Mismatch(s: string, j: nat, i: nat)
    requires i < 4 && (j + 4 <= |s| ==> s[j + i] != AppendFlag[i])
    ensures !OccursAt(s, AppendFlag, j)
  {
    if j + 4 <= |s| {
      assert s[j..j + 4][i] == s[j + i];
    }
  }

  /** The iptables command cut around its action. */
  lemma ActionShape(rule: IptablesRule)
    ensures ConstructIptablesCommand(rule)
      == ("iptables -t " + rule.table) + (" -" + (rule.action + (" " + (rule.chain + IptablesOptions(rule)))))
  {
  }

  /** A line "iptables -t <t> -A <z>" with t free of spaces and other than
      "-A" has its first " -A " right after t. */
  lemma FirstFlag(t: string, z: string)
    requires SpaceFree(t) && t != "-A"
    ensures Find(("iptables -t " + t) + (" -" + ("A" + (" " + z))), AppendFlag) == Some(12 + |t|)
  {
    var y := "iptables -t " + t;
    var s := y + (" -" + ("A" + (" " + z)));
    assert s[|y|..|y| + 4] == AppendFlag;
    forall j | 0 <= j < |y|
      ensures !OccursAt(s, AppendFlag, j)
    {
      assert s[..|y|] == y;
      if j >= 12 {
        assert s[j] == t[j - 12];
        Mismatch(s, j, 0);
      } else if j == 8 {
        assert s[j + 2] == y[10] == 't';
        Mismatch(s, j, 2);
      } else if j != 11 {
        assert s[j] == y[j];
        Mismatch(s, j, 0);
      } else if |t| == 0 {
        assert s[j + 1] == ' ';
        Mismatch(s, j, 1);
      } else if |t| == 1 {
        assert s[j + 2] == ' ';
        Mismatch(s, j, 2);
      } else if |t| == 2 {
        assert s[12] == t[0] && s[13] == t[1];
        if t[0] != '-' { Mismatch(s, j, 1); } else { Mismatch(s, j, 2); }
      } else {
        assert s[j + 3] == t[2];
        Mismatch(s, j, 3);
      }
    }
    FindIs(s, AppendFlag, |y|);
  }

  /** The corrected check turns "-A" after the table into "-C". */
  lemma CheckAt(t: string, z: string)
    requires SpaceFree(t) && t != "-A"
    ensures CheckCommand(("iptables -t " + t) + (" -" + ("A" + (" " + z))))
      == ("iptables -t " + t) + (" -" + ("C" + (" " + z)))
  {
    FirstFlag(t, z);
    var y := "iptables -t " + t;
    var s := y + (" -" + ("A" + (" " + z)));
    assert s[..|y| + 2] == y + " -";
    assert s[|y| + 3..] == " " + z;
  }

  /** As written, the check turns " -A " after the table into " CA ". */
  lemma CheckAtAsWritten(t: string, z: string)
    requires SpaceFree(t) && t != "-A"
    ensures CheckCommandAsWritten(("iptables -t " + t) + (" -" + ("A" + (" " + z))))
      == ("iptables -t " + t) + (" " + ("CA" + (" " + z)))
  {
    FirstFlag(t, z);
    var y := "iptables -t " + t;
    var s := y + (" -" + ("A" + (" " + z)));
    assert s[..|y| + 1] == y + " ";
    assert s[|y| + 2..] == "A" + (" " + z);
  }

  /** The corrected check of an append is the iptables command of the same
      rule with action C, so `iptables -C` tests for that very rule. */
  lemma CheckOfAppend(rule: IptablesRule)
    requires rule.action == "A" && SpaceFree(rule.table) && rule.table != "-A"
    ensures CheckCommand(ConstructIptablesCommand(rule)) == ConstructIptablesCommand(rule.(action := "C"))
  {
    var c := rule.(action := "C");
    ActionShape(rule);
    ActionShape(c);
    OptionsIgnoreAction(rule, "C");
    CheckAt(rule.table, rule.chain + IptablesOptions(rule));
  }

  /** The clauses after the chain do not depend on the action. */
  lemma OptionsIgnoreAction(rule: IptablesRule, a: string)
    ensures IptablesOptions(rule.(action := a)) == IptablesOptions(rule)
  {
  }

  /** The words of a line "<w0> <w1> <t> <x> <chain> <opts>" whose head
      "<w0> <w1> " is written as one string h. */
  lemma HeadWords(h: string, w0: string, w1: string, t: string, x: string, chain: string, opts: seq<string>)
    requires h == w0 + (" " + (w1 + " "))
    requires SpaceFree(w0) && SpaceFree(w1) && SpaceFree(t) && SpaceFree(x) && SpaceFree(chain) && AllSpaceFree(opts)
    ensures Split((h + t) + (" " + (x + (" " + (chain + Spaced(opts)))))) == [w0, w1, t, x, chain] + opts
  {
    var y := " " + (x + (" " + (chain + Spaced(opts))));
    assert (h + t) + y == h + (t + y);
    HeadLine(h, w0, w1, t, x, chain, opts);
    AllSpaceFreeAppend([w1, t, x, chain], opts);
    SplitSpaced(w0, [w1, t, x, chain] + opts);
  }

  lemma CheckHeadWords()
    ensures SpaceFree("iptables") && SpaceFree("-t") && SpaceFree("CA")
  {
  }

  /** As written, the check of any append (with a table free of spaces and
      other than "-A") has the word "CA" where the action flag belongs, so
      it is not an iptables rule command at all. */
  lemma CheckOfAppendAsWritten(rule: IptablesRule)
    requires rule.action == "A" && rule.table != "-A" && RuleSpaceFree(rule)
    ensures |Split(CheckCommandAsWritten(ConstructIptablesCommand(rule)))| > 3
    ensures Split(CheckCommandAsWritten(ConstructIptablesCommand(rule)))[3] == "CA"
    ensures ParseIptablesCommand(CheckCommandAsWritten(ConstructIptablesCommand(rule))) == None
  {
    var opts := IptablesOptionArgs(rule);
    ActionShape(rule);
    IptablesOptionWords(rule);
    CheckAtAsWritten(rule.table, rule.chain + Spaced(opts));
    IptablesOptionArgsSpaceFree(rule);
    IptablesHead();
    CheckHeadWords();
    HeadWords("iptables -t ", "iptables", "-t", rule.table, "CA", rule.chain, opts);
  }

  predicate NoAppendWord(ws: seq<string>) {
    forall k :: 0 <= k < |ws| ==> ws[k] != "-A"
  }

  /** A line none of whose later words is "-A" has no " -A " in it. */
  lemma {:induction false} NoFlagInWords(w: string, ws: seq<string>)
    requires SpaceFree(w) && AllSpaceFree(ws) && NoAppendWord(ws)
    ensures forall j: nat :: !OccursAt(w + Spaced(ws), AppendFlag, j)
    decreases |ws|
  {
    var s := w + Spaced(ws);
    if ws == [] {
      assert s == w;
      forall j: nat ensures !OccursAt(s, AppendFlag, j) {
        if j < |s| { Mismatch(s, j, 0); } else { Mismatch(s, j, 0); }
      }
    } else {
      var v := ws[0];
      var t := v + Spaced(ws[1..]);
      assert AllSpaceFree(ws[1..]) && NoAppendWord(ws[1..]);
      NoFlagInWords(v, ws[1..]);
      assert s == w + (" " + t);
      assert s[|w| + 1..] == t;
      forall j: nat ensures !OccursAt(s, AppendFlag, j) {
        if j < |w| {
          assert s[j] == w[j];
          Mismatch(s, j, 0);
        } else if j > |w| {
          assert !OccursAt(t, AppendFlag, j - |w| - 1);
          if j + 4 <= |s| {
            assert s[j..j + 4] == t[j - |w| - 1..j - |w| + 3];
          }
        } else {
          WordBoundary(s, j, v, Spaced(ws[1..]));
        }
      }
    }
  }

  /** At the space before a word other than "-A", " -A " does not start. */
  lemma WordBoundary(s: string, j: nat, v: string, rest: string)
    requires SpaceFree(v) && v != "-A"
    requires j + 1 + |v| + |rest| == |s| && s[j + 1..] == v + rest
    requires rest == [] || rest[0] == ' '
    ensures !OccursAt(s, AppendFlag, j)
  {
    if |v| == 0 {
      Mismatch(s, j, 1);
    } else if |v| == 1 {
      Mismatch(s, j, 2);
    } else if |v| == 2 {
      assert s[j + 1] == v[0] && s[j + 2] == v[1];
      if v[0] != '-' { Mismatch(s, j, 1); } else { Mismatch(s, j, 2); }
    } else {
      assert s[j + 3] == v[2];
      Mismatch(s, j, 3);
    }
  }

  lemma NoAppendWordAppend(a: seq<string>, b: seq<string>)
    requires NoAppendWord(a) && NoAppendWord(b)
    ensures NoAppendWord(a + b)
  {
    forall k | 0 <= k < |a + b| ensures (a + b)[k] != "-A" {
      if k < |a| { assert (a + b)[k] == a[k]; } else { assert (a + b)[k] == b[k - |a|]; }
    }
  }

  lemma NftLiteralsNotFlag()
    ensures "add" != "-A" && "rule" != "-A" && "ip" != "-A" && "saddr" != "-A" && "daddr" != "-A"
    ensures "iif" != "-A" && "oif" != "-A" && "snat" != "-A" && "dnat" != "-A" && "to" != "-A"
  {
    assert "ip"[0] != "-A"[0] && "to"[0] != "-A"[0];
  }

  lemma NftOptionArgsNoFlag(rule: IptablesRule)
    requires rule.matchValue != "-A" && rule.ifaceName != "-A" && rule.jumpTarget != "-A" && rule.translateIp != "-A"
    ensures NoAppendWord(NftOptionArgs(rule))
  {
    NftLiteralsNotFlag();
    var m, i, j := NftMatchArgs(rule), NftIfaceArgs(rule), NftJumpArgs(rule);
    assert NoAppendWord(m);
    assert NoAppendWord(i);
    assert NoAppendWord(j);
    NoAppendWordAppend(i, j);
    NoAppendWordAppend(m, i + j);
  }

  /** On the nf_tables backend the check command of an append is the nft
      command itself when no field is the word "-A". */
  lemma NftCheckIsCommand(rule: IptablesRule)
    requires RuleSpaceFree(rule)
    requires rule.table != "-A" && rule.chain != "-A" && rule.matchValue != "-A" && rule.ifaceName != "-A"
    requires rule.jumpTarget != "-A" && rule.translateIp != "-A"
    ensures CheckCommand(ConvertToNftables(rule)) == ConvertToNftables(rule)
  {
    NftWords(rule);
    NftArgsSpaceFree(rule);
    NftOptionArgsNoFlag(rule);
    NftLiteralsNotFlag();
    var head := ["add", "rule", "ip", rule.table];
    assert NoAppendWord(head);
    NoAppendWordAppend([rule.chain], NftOptionArgs(rule));
    NoAppendWordAppend(head, [rule.chain] + NftOptionArgs(rule));
    assert NftArgs(rule)[1..] == head + ([rule.chain] + NftOptionArgs(rule));
    NoFlagInWords("nft", NftArgs(rule)[1..]);
  }

  // ----------------------------------------------------------------- backend

  /** The backend named by `iptables --version` output: nf_tables is looked
      for first, then legacy. */
  function Classify(versionOutput: string): (r: string)
    ensures r == "nf_tables" <==> Contains(versionOutput, "nf_tables")
    ensures r == "legacy" <==> !Contains(versionOutput, "nf_tables") && Contains(versionOutput, "legacy")
    ensures r == "unknown" <==> !Contains(versionOutput, "nf_tables") && !Contains(versionOutput, "legacy")
  {
    if Contains(versionOutput, "nf_tables") then "nf_tables"
    else if Contains(versionOutput, "legacy") then "legacy"
    else "unknown"
  }

  /** The command the wrapper runs for a rule on a backend. */
  function CommandFor(backend: string, rule: IptablesRule): string {
    if backend == "nf_tables" then ConvertToNftables(rule) else ConstructIptablesCommand(rule)
  }

  /** The process-wide backend cache (iptables_backend). An empty value
      means nothing has been detected yet. */
  class Backend {
    var detected: string

    constructor ()
      ensures detected == ""
    {
      detected := "";
    }

    predicate Valid()
      reads this
    {
      detected == "" || detected == "nf_tables" || detected == "legacy" || detected == "unknown"
    }

    /** detect_iptables_backend: the cached answer once there is one;
        otherwise the answer classified from the output of `iptables
        --version`, which is cached. A failed popen (None) answers
        "unknown" and caches nothing. */
    method Detect(versionOutput: Option<string>) returns (backend: string)
      requires Valid()
      modifies this
      ensures Valid()
      ensures old(detected) != "" ==> backend == old(detected) && detected == old(detected)
      ensures old(detected) == "" && versionOutput.None? ==> backend == "unknown" && detected == ""
      ensures old(detected) == "" && versionOutput.Some? ==> backend == Classify(versionOutput.value) && detected == backend
      ensures detected == "" || detected == backend
    {
      if detected != "" {
        return detected;
      }
      if versionOutput.None? {
        return "unknown";
      }
      detected := Classify(versionOutput.value);
      backend := detected;
    }

    /** execute_iptables_command with the corrected check: build the
        command for the detected backend; for an append, run the check
        command first (checkStatus is its exit status) and stop with 0 when
        the rule exists; otherwise run the command (runStatus) and map its
        status to 0 or -1. `checked` and `ran` are the commands handed to
        the shell. */
    method Execute(rule: IptablesRule, versionOutput: Option<string>, checkStatus: int, runStatus: int)
        returns (status: int, checked: Option<string>, ran: Option<string>)
      requires Valid()
      modifies this
      ensures Valid()
      ensures old(detected) != "" ==> detected == old(detected)
      ensures var backend := if old(detected) != "" then old(detected)
                             else if versionOutput.None? then "unknown" else Classify(versionOutput.value);
              var command := CommandFor(backend, rule);
              checked == (if rule.action == "A" then Some(CheckCommand(command)) else None) &&
              ran == (if rule.action == "A" && checkStatus == 0 then None else Some(command))
      ensures ran.None? ==> status == 0
      ensures ran.Some? ==> (status == 0 <==> runStatus == 0) && (status != 0 ==> status == -1)
    {
      var backend := Detect(versionOutput);
      var command := CommandFor(backend, rule);
      checked, ran := None, None;
      if rule.action == "A" {
        checked := Some(CheckCommand(command));
        if checkStatus == 0 {
          return 0, checked, None;
        }
      }
      ran := Some(command);
      status := if runStatus == 0 then 0 else -1;
    }
  }
}
