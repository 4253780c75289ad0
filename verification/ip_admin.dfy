/** Editing the IP lists from the dashboard: the configuration file, the settings in memory and the
    filter in force stay together (internal/app/server/web.go:428-580,
    internal/app/common/ipfilter/ipfilter.go:46-99, internal/app/common/config/config.go:126-150). */
module IpAdmin {
  import opened Text
  import opened ConfigSection
  import opened ConfigMeaning
  import opened ConfigEditor
  import opened ConfigReader
  import opened ConfigReadback

  // ---------------------------------------------------------------- the filter

  /** parseList; parse stands for ParseCIDR and ParseIP on one trimmed entry. */
  function ParseList<N>(parse: string -> Option<N>, items: seq<string>): Option<seq<N>> {
    if items == [] then Some([])
    else
      var item := TrimSpace(items[0]);
      if item == "" then ParseList(parse, items[1..])
      else
        match parse(item)
        case None => None
        case Some(n) => Cons(n, ParseList(parse, items[1..]))
  }

  function Cons<N>(n: N, rest: Option<seq<N>>): Option<seq<N>> {
    match rest
    case None => None
    case Some(ns) => Some([n] + ns)
  }

  datatype Rules<N> = Rules(enabled: bool, allow: seq<N>, deny: seq<N>)

  /** The rules a setting stands for; None when an entry is no address. */
  function RulesOf<N>(parse: string -> Option<N>, cfg: IPFilterConfig): Option<Rules<N>> {
    match (ParseList(parse, cfg.allowList), ParseList(parse, cfg.denyList))
    case (Some(a), Some(d)) => Some(Rules(cfg.enable, a, d))
    case _ => None
  }

  function Then<N>(done: seq<N>, rest: Option<seq<N>>): Option<seq<N>> {
    match rest
    case None => None
    case Some(ns) => Some(done + ns)
  }

  lemma ThenCons<N>(done: seq<N>, n: N, rest: Option<seq<N>>)
    ensures Then(done, Cons(n, rest)) == Then(done + [n], rest)
  {
    if rest.Some? { assert done + ([n] + rest.value) == done + [n] + rest.value; }
  }

  method ParseListLoop<N>(parse: string -> Option<N>, items: seq<string>) returns (out: Option<seq<N>>)
    ensures out == ParseList(parse, items)
  {
    hide TrimSpace, Cons, Then;
    var nets: seq<N> := [];
    var i := 0;
    assert items[0..] == items;
    ThenNothing(ParseList(parse, items));
    while i < |items|
      invariant 0 <= i <= |items| && ParseList(parse, items) == Then(nets, ParseList(parse, items[i..]))
    {
      assert items[i..][1..] == items[i + 1..];
      var item := TrimSpace(items[i]);
      i := i + 1;
      if item == "" {
        continue;
      }
      match parse(item) {
        case None =>
          ThenNone(nets);
          return None;
        case Some(n) =>
          ThenCons(nets, n, ParseList(parse, items[i..]));
          nets := nets + [n];
      }
    }
    ThenEnd(nets);
    out := Some(nets);
  }

  lemma ThenNothing<N>(rest: Option<seq<N>>)
    ensures Then([], rest) == rest
  {
    if rest.Some? { assert [] + rest.value == rest.value; }
  }

  lemma ThenNone<N>(done: seq<N>)
    ensures Then(done, None) == None
  {
  }

  lemma ThenEnd<N>(done: seq<N>)
    ensures Then(done, Some([])) == Some(done)
  {
    assert done + [] == done;
  }

  /** Some entry of the list, blanks aside, stands for the network n. */
  ghost predicate Listed<N>(parse: string -> Option<N>, items: seq<string>, n: N) {
    exists e :: e in items && TrimSpace(e) != "" && parse(TrimSpace(e)) == Some(n)
  }

  /** An entry that is not blank and no address. */
  predicate Malformed<N>(parse: string -> Option<N>, items: seq<string>) {
    exists e :: e in items && TrimSpace(e) != "" && parse(TrimSpace(e)).None?
  }

  lemma {:induction false} ParsedList<N(!new)>(parse: string -> Option<N>, items: seq<string>)
    ensures ParseList(parse, items).None? <==> Malformed(parse, items)
    ensures match ParseList(parse, items)
      case None => true
      case Some(ns) => forall n :: n in ns <==> Listed(parse, items, n)
  {
    hide TrimSpace;
    if items != [] {
      ParsedList(parse, items[1..]);
      assert forall e :: e in items <==> e == items[0] || e in items[1..];
    }
  }

  /** What a setting asks for: the rules allow the networks of the allow list and deny those of the deny
      list, and no others. */
  ghost predicate Stands<N(!new)>(parse: string -> Option<N>, rules: Rules<N>, cfg: IPFilterConfig) {
    && rules.enabled == cfg.enable
    && (forall n :: n in rules.allow <==> Listed(parse, cfg.allowList, n))
    && (forall n :: n in rules.deny <==> Listed(parse, cfg.denyList, n))
  }

  lemma RulesStand<N(!new)>(parse: string -> Option<N>, cfg: IPFilterConfig)
    ensures RulesOf(parse, cfg).None? <==> Malformed(parse, cfg.allowList) || Malformed(parse, cfg.denyList)
    ensures RulesOf(parse, cfg).Some? ==> Stands(parse, RulesOf(parse, cfg).value, cfg)
  {
    hide ParseList, Malformed, Listed;
    ParsedList(parse, cfg.allowList);
    ParsedList(parse, cfg.denyList);
  }

  // ---------------------------------------------------------------- the verdict

  /** Whether an address may come in: the deny list first, then the allow list unless it is empty; no
      address at all never may, and everything may while the filter is off. within stands for
      IPNet.Contains. */
  predicate Allowed<N, A>(rules: Rules<N>, within: (N, A) -> bool, ip: Option<A>) {
    !rules.enabled
    || (ip.Some? && (forall i :: 0 <= i < |rules.deny| ==> !within(rules.deny[i], ip.value))
        && (rules.allow == [] || exists i :: 0 <= i < |rules.allow| && within(rules.allow[i], ip.value)))
  }

  datatype Source = FromDeny | FromAllow | Default

  /** rule is the network that decided. */
  datatype CheckResult<N> = CheckResult(enabled: bool, allowed: bool, rule: Option<N>, source: Source)

  /** contains and match: the first network of the list that holds the address. */
  method Match<N, A>(list: seq<N>, within: (N, A) -> bool, ip: A) returns (rule: Option<N>)
    ensures match rule
      case None => forall i :: 0 <= i < |list| ==> !within(list[i], ip)
      case Some(n) =>
        exists i :: 0 <= i < |list| && list[i] == n && within(n, ip) && forall j :: 0 <= j < i ==> !within(list[j], ip)
  {
    var i := 0;
    while i < |list|
      invariant 0 <= i <= |list| && forall j :: 0 <= j < i ==> !within(list[j], ip)
    {
      if within(list[i], ip) {
        return Some(list[i]);
      }
      i := i + 1;
    }
    rule := None;
  }

  /** An entry of the list, blanks aside, whose network holds the address. */
  ghost predicate Covers<N, A>(parse: string -> Option<N>, items: seq<string>, within: (N, A) -> bool, ip: A) {
    exists e :: e in items && TrimSpace(e) != "" && parse(TrimSpace(e)).Some? && within(parse(TrimSpace(e)).value, ip)
  }

  lemma ListedCovers<N(!new), A>(parse: string -> Option<N>, items: seq<string>, ns: seq<N>,
                                 within: (N, A) -> bool, ip: A)
    requires forall n :: n in ns <==> Listed(parse, items, n)
    ensures Covers(parse, items, within, ip) <==> exists i :: 0 <= i < |ns| && within(ns[i], ip)
  {
    hide TrimSpace;
    if Covers(parse, items, within, ip) {
      var e :| e in items && TrimSpace(e) != "" && parse(TrimSpace(e)).Some?
        && within(parse(TrimSpace(e)).value, ip);
      var n := parse(TrimSpace(e)).value;
      assert Listed(parse, items, n);
      var i :| 0 <= i < |ns| && ns[i] == n;
    }
    if i :| 0 <= i < |ns| && within(ns[i], ip) {
      assert ns[i] in ns && Listed(parse, items, ns[i]);
    }
  }

  lemma NoneListed<N(!new)>(parse: string -> Option<N>, items: seq<string>, ns: seq<N>)
    requires (forall n :: n in ns <==> Listed(parse, items, n)) && !Malformed(parse, items)
    ensures ns == [] <==> forall e :: e in items ==> TrimSpace(e) == ""
  {
    hide TrimSpace;
    if ns != [] {
      assert Listed(parse, items, ns[0]);
    }
    if e :| e in items && TrimSpace(e) != "" {
      assert Listed(parse, items, parse(TrimSpace(e)).value);
    }
  }

  /** The verdict in terms of the setting: with the filter on, an address comes in exactly when no entry of
      the deny list covers it, and one of the allow list does unless there is none. */
  lemma VerdictOfSetting<N(!new), A>(parse: string -> Option<N>, rules: Rules<N>, cfg: IPFilterConfig,
                                     within: (N, A) -> bool, ip: Option<A>)
    requires Stands(parse, rules, cfg) && !Malformed(parse, cfg.allowList)
    ensures Allowed(rules, within, ip) <==>
      !cfg.enable || (ip.Some? && !Covers(parse, cfg.denyList, within, ip.value)
        && (Covers(parse, cfg.allowList, within, ip.value) || forall e :: e in cfg.allowList ==> TrimSpace(e) == ""))
  {
    hide Listed, Malformed, Covers, TrimSpace;
    NoneListed(parse, cfg.allowList, rules.allow);
    if ip.Some? {
      ListedCovers(parse, cfg.denyList, rules.deny, within, ip.value);
      ListedCovers(parse, cfg.allowList, rules.allow, within, ip.value);
    }
  }

  class Filter<N(!new)> {
    const parse: string -> Option<N>
    var rules: Rules<N>

    constructor (parse: string -> Option<N>, rules: Rules<N>)
      ensures this.parse == parse && this.rules == rules
    {
      this.parse, this.rules := parse, rules;
    }

    /** Reload: all of the new rules, or none. */
    method Reload(cfg: IPFilterConfig) returns (ok: bool)
      modifies this
      ensures ok == RulesOf(parse, cfg).Some?
      ensures rules == if ok then RulesOf(parse, cfg).value else old(rules)
      ensures ok <==> !Malformed(parse, cfg.allowList) && !Malformed(parse, cfg.denyList)
      ensures ok ==> Stands(parse, rules, cfg)
    {
      RulesStand(parse, cfg);
      hide Malformed, Stands;
      var allow := ParseListLoop(parse, cfg.allowList);
      if allow.None? {
        return false;
      }
      var deny := ParseListLoop(parse, cfg.denyList);
      if deny.None? {
        return false;
      }
      rules := Rules(cfg.enable, allow.value, deny.value);
      ok := true;
    }

    /** Allow. */
    method Allow<A>(within: (N, A) -> bool, ip: Option<A>) returns (ok: bool)
      ensures ok == Allowed(rules, within, ip)
    {
      if !rules.enabled {
        return true;
      }
      if ip.None? {
        return false;
      }
      var denied := Match(rules.deny, within, ip.value);
      if denied.Some? {
        return false;
      }
      if |rules.allow| > 0 {
        var rule := Match(rules.allow, within, ip.value);
        return rule.Some?;
      }
      ok := true;
    }

    /** Check: the same verdict, with the network that decided it. */
    method Check<A>(within: (N, A) -> bool, ip: Option<A>) returns (res: CheckResult<N>)
      ensures res.enabled == rules.enabled && res.allowed == Allowed(rules, within, ip)
      ensures match res.source
        case FromDeny =>
          ip.Some? && !res.allowed && res.rule.Some? && res.rule.value in rules.deny && within(res.rule.value, ip.value)
        case FromAllow =>
          ip.Some? && res.allowed && res.rule.Some? && res.rule.value in rules.allow && within(res.rule.value, ip.value)
        case Default => res.rule == None
    {
      res := CheckResult(rules.enabled, false, None, Default);
      if !rules.enabled {
        return res.(allowed := true);
      }
      if ip.None? {
        return;
      }
      var denied := Match(rules.deny, within, ip.value);
      if denied.Some? {
        return res.(rule := denied, source := FromDeny);
      }
      if |rules.allow| > 0 {
        var rule := Match(rules.allow, within, ip.value);
        if rule.Some? {
          return res.(allowed := true, rule := rule, source := FromAllow);
        }
        return;
      }
      res := res.(allowed := true);
    }
  }

  /** Validate. */
  method Validate<N>(parse: string -> Option<N>, cfg: IPFilterConfig) returns (ok: bool)
    ensures ok == RulesOf(parse, cfg).Some?
  {
    var allow := ParseListLoop(parse, cfg.allowList);
    if allow.None? {
      return false;
    }
    var deny := ParseListLoop(parse, cfg.denyList);
    ok := deny.Some?;
  }

  // ---------------------------------------------------------------- requests

  datatype Request =
    | Toggle(enable: bool)
    | Add(list: string, entry: string)
    | Remove(list: string, value: string)

  function Without(items: seq<string>, value: string): seq<string> {
    if items == [] then [] else (if items[0] != value then [items[0]] else []) + Without(items[1..], value)
  }

  function WithEntry(items: seq<string>, entry: string): seq<string> {
    if entry in items then items else items + [entry]
  }

  /** What the handler asks mutateIPFilter to do; None for an unknown list name. */
  function Mutate(cfg: IPFilterConfig, req: Request): Option<IPFilterConfig> {
    match req
    case Toggle(b) => Some(cfg.(enable := b))
    case Add(list, entry) =>
      if list == "allow" then Some(cfg.(allowList := WithEntry(cfg.allowList, entry)))
      else if list == "deny" then Some(cfg.(denyList := WithEntry(cfg.denyList, entry)))
      else None
    case Remove(list, value) =>
      if list == "allow" then Some(cfg.(allowList := Without(cfg.allowList, value)))
      else if list == "deny" then Some(cfg.(denyList := Without(cfg.denyList, value)))
      else None
  }

  /** Removing a value takes out every occurrence of it and keeps the others in order. */
  lemma {:induction false} WithoutMeans(items: seq<string>, value: string)
    ensures value !in Without(items, value)
    ensures forall x :: x != value ==> multiset(Without(items, value))[x] == multiset(items)[x]
  {
    if items != [] {
      WithoutMeans(items[1..], value);
      assert items == [items[0]] + items[1..];
    }
  }

  lemma {:induction false} WithoutAppend(a: seq<string>, b: seq<string>, value: string)
    ensures Without(a + b, value) == Without(a, value) + Without(b, value)
  {
    if a == [] {
      assert a + b == b;
    } else {
      WithoutAppend(a[1..], b, value);
      assert (a + b)[1..] == a[1..] + b && (a + b)[0] == a[0];
      Regroup(if a[0] != value then [a[0]] else [], Without(a[1..], value), Without(b, value));
    }
  }

  /** A request changes the switch or the named list, and nothing else. */
  lemma MutateMeans(cfg: IPFilterConfig, list: string, entry: string, b: bool)
    ensures Mutate(cfg, Toggle(b)) == Some(IPFilterConfig(b, cfg.allowList, cfg.denyList))
    ensures Mutate(cfg, Add("allow", entry)) == Some(IPFilterConfig(cfg.enable,
      if entry in cfg.allowList then cfg.allowList else cfg.allowList + [entry], cfg.denyList))
    ensures Mutate(cfg, Add("deny", entry)) == Some(IPFilterConfig(cfg.enable, cfg.allowList,
      if entry in cfg.denyList then cfg.denyList else cfg.denyList + [entry]))
    ensures Mutate(cfg, Remove("allow", entry)) ==
      Some(IPFilterConfig(cfg.enable, Without(cfg.allowList, entry), cfg.denyList))
    ensures Mutate(cfg, Remove("deny", entry)) ==
      Some(IPFilterConfig(cfg.enable, cfg.allowList, Without(cfg.denyList, entry)))
    ensures list != "allow" && list != "deny" ==>
      Mutate(cfg, Add(list, entry)).None? && Mutate(cfg, Remove(list, entry)).None?
  {
  }

  // ---------------------------------------------------------------- one request

  datatype Panel<N> = Panel(file: string, cfg: IPFilterConfig, rules: Rules<N>)

  /** What a request leads to: everything moves to the next setting, or nothing moves. */
  predicate Succeeds<N(==)>(parse: string -> Option<N>, path: string, p: Panel<N>, req: Request, disk: bool) {
    var next := Mutate(p.cfg, req);
    next.Some? && RulesOf(parse, next.value).Some? && path != "" && disk && ReplaceSection(p.file, next.value).Some?
  }

  function Handle<N(==)>(parse: string -> Option<N>, path: string, p: Panel<N>, req: Request, disk: bool): Panel<N> {
    if Succeeds(parse, path, p, req, disk) then
      var next := Mutate(p.cfg, req).value;
      Panel(ReplaceSection(p.file, next).value, next, RulesOf(parse, next).value)
    else p
  }

  /** Every entry of the setting is an address, there is a path, the disk works, and the file has the section. */
  ghost predicate Writable<N>(parse: string -> Option<N>, path: string, file: string, f: IPFilterConfig, disk: bool) {
    && !Malformed(parse, f.allowList) && !Malformed(parse, f.denyList)
    && path != "" && disk && exists ln :: ln in Split(file, "\n") && "ipFilter:" <= ln
  }

  /** A request succeeds exactly when it names a known list and the next setting can be written. */
  lemma SucceedsExactly<N(!new)>(parse: string -> Option<N>, path: string, p: Panel<N>, req: Request, disk: bool)
    ensures Succeeds(parse, path, p, req, disk) <==>
      Mutate(p.cfg, req).Some? && Writable(parse, path, p.file, Mutate(p.cfg, req).value, disk)
  {
    hide Mutate, RulesOf, Malformed, Replace;
    var next := Mutate(p.cfg, req);
    if next.Some? {
      RulesStand(parse, next.value);
      HeaderMeans(Split(p.file, "\n"), next.value);
    }
  }

  class Server<N(==,!new)> {
    const configPath: string
    const filter: Filter<N>
    var file: string
    var cfg: IPFilterConfig

    ghost function State(): Panel<N>
      reads this, filter
    {
      Panel(file, cfg, filter.rules)
    }

    constructor (configPath: string, filter: Filter<N>, file: string, cfg: IPFilterConfig)
      ensures this.configPath == configPath && this.filter == filter && State() == Panel(file, cfg, filter.rules)
    {
      this.configPath, this.filter, this.file, this.cfg := configPath, filter, file, cfg;
    }

    /** SaveIPFilter: write a temporary file and rename it; disk says whether every file operation
        works, and when one fails the file is as before. */
    method SaveIPFilter(f: IPFilterConfig, disk: bool) returns (ok: bool)
      modifies this`file
      ensures ok == (disk && ReplaceSection(old(file), f).Some?)
      ensures file == if ok then ReplaceSection(old(file), f).value else old(file)
    {
      hide ReplaceSection;
      var out := ReplaceIPFilterSection(file, f);
      if out.None? || !disk {
        return false;
      }
      file := out.value;
      ok := true;
    }

    /** mutateIPFilter: validate, save, reload, and only then keep the new setting. */
    method MutateIPFilter(req: Request, disk: bool) returns (ok: bool)
      modifies this`file, this`cfg, filter
      ensures ok == Succeeds(filter.parse, configPath, old(State()), req, disk)
      ensures State() == Handle(filter.parse, configPath, old(State()), req, disk)
      ensures ok ==> Mutate(old(cfg), req) == Some(cfg) && Stands(filter.parse, filter.rules, cfg)
      ensures !ok ==> State() == old(State())
    {
      hide Mutate, RulesOf, ReplaceSection, Stands, Malformed;
      var next := Mutate(cfg, req);
      if next.None? {
        return false;
      }
      var valid := Validate(filter.parse, next.value);
      if !valid {
        return false;
      }
      if configPath == "" {
        return false;
      }
      var saved := SaveIPFilter(next.value, disk);
      if !saved {
        return false;
      }
      var reloaded := filter.Reload(next.value);
      if !reloaded {
        return false;
      }
      cfg := next.value;
      ok := true;
    }
  }

  // ---------------------------------------------------------------- any history of requests

  datatype Attempt = Attempt(req: Request, disk: bool)

  function HandleAll<N(==)>(parse: string -> Option<N>, path: string, p: Panel<N>, run: seq<Attempt>): Panel<N>
    decreases |run|
  {
    if run == [] then p else HandleAll(parse, path, Handle(parse, path, p, run[0].req, run[0].disk), run[1..])
  }

  /** The rules in force are those of the setting. */
  predicate InForce<N(==)>(parse: string -> Option<N>, p: Panel<N>) {
    RulesOf(parse, p.cfg) == Some(p.rules)
  }

  /** The file is the original, or one edit of the original with the setting. */
  predicate Saved<N(==)>(start: Panel<N>, p: Panel<N>) {
    (p.file == start.file && p.cfg == start.cfg) || ReplaceSection(start.file, p.cfg) == Some(p.file)
  }

  lemma HandleKeeps<N>(parse: string -> Option<N>, path: string, start: Panel<N>, p: Panel<N>, a: Attempt)
    requires InForce(parse, p) && Saved(start, p)
    ensures var p' := Handle(parse, path, p, a.req, a.disk); InForce(parse, p') && Saved(start, p')
  {
    hide Mutate, RulesOf, ReplaceSection;
    var next := Mutate(p.cfg, a.req);
    if Succeeds(parse, path, p, a.req, a.disk) && p.file != start.file {
      EditTwice(start.file, p.cfg, next.value);
    }
  }

  /** However the requests mix and fail, the rules in force are those of the setting in memory, and
      the file is one edit of the original with it. */
  lemma {:induction false} AgreeFrom<N(!new)>(parse: string -> Option<N>, path: string, start: Panel<N>, p: Panel<N>,
                                              run: seq<Attempt>)
    requires InForce(parse, p) && Saved(start, p)
    ensures var q := HandleAll(parse, path, p, run); InForce(parse, q) && Saved(start, q)
    ensures var q := HandleAll(parse, path, p, run); Stands(parse, q.rules, q.cfg)
    decreases |run|
  {
    hide Handle, Saved, RulesOf, Stands;
    RulesStand(parse, p.cfg);
    if run != [] {
      HandleKeeps(parse, path, start, p, run[0]);
      AgreeFrom(parse, path, start, Handle(parse, path, p, run[0].req, run[0].disk), run[1..]);
    }
  }

  /** A file whose section any setting can be written to and read back from. */
  predicate EditableFile(src: string) {
    var lines := Split(src, NL);
    HeaderAt(lines) < |lines| && Editable(PartsOf(lines))
  }

  function LoadFile(src: string): Option<IPFilterConfig> { Load(Split(src, NL)) }

  /** The file after writing f loads as f. */
  predicate Loads(src: string, f: IPFilterConfig) {
    ReplaceSection(src, f).Some? && LoadFile(ReplaceSection(src, f).value) == Some(f)
  }

  /** Writing a setting and the same with the filter switched both load exactly for editable files. */
  lemma EditLoads(src: string, f: IPFilterConfig)
    ensures EditableFile(src) <==> Loads(src, f) && Loads(src, Flip(f))
  {
    hide Split, Join, Load, PartsOf, HeaderAt, Editable, Replace;
    var lines := Split(src, NL);
    HeaderThere(lines, f);
    HeaderThere(lines, Flip(f));
    if HeaderAt(lines) < |lines| {
      SplitEdited(src, f);
      SplitEdited(src, Flip(f));
      ReadBack(lines, f);
    }
  }

  lemma HeaderThere(lines: seq<string>, f: IPFilterConfig)
    ensures Replace(lines, f).Some? <==> HeaderAt(lines) < |lines|
  {
    hide Body, PartsOf, HeaderAt;
    HeaderBound(lines);
  }

  lemma HeaderBound(lines: seq<string>)
    ensures HeaderAt(lines) <= |lines|
  {
  }

  /** How many attempts of a run change the file, the setting and the rules. */
  function Successes<N(==)>(parse: string -> Option<N>, path: string, p: Panel<N>, run: seq<Attempt>): nat
    decreases |run|
  {
    if run == [] then 0
    else
      (if Succeeds(parse, path, p, run[0].req, run[0].disk) then 1 else 0)
      + Successes(parse, path, Handle(parse, path, p, run[0].req, run[0].disk), run[1..])
  }

  /** After at least one success the file is one edit of the original with the setting in force. */
  lemma {:induction false} EditedAfter<N(!new)>(parse: string -> Option<N>, path: string, start: Panel<N>, p: Panel<N>,
                                          run: seq<Attempt>)
    requires Saved(start, p)
    requires Successes(parse, path, p, run) > 0 || ReplaceSection(start.file, p.cfg) == Some(p.file)
    ensures var q := HandleAll(parse, path, p, run); ReplaceSection(start.file, q.cfg) == Some(q.file)
    decreases |run|
  {
    hide Mutate, RulesOf, ReplaceSection;
    if run != [] {
      var a := run[0];
      var p1 := Handle(parse, path, p, a.req, a.disk);
      if Succeeds(parse, path, p, a.req, a.disk) && ReplaceSection(start.file, p.cfg) == Some(p.file) {
        EditTwice(start.file, p.cfg, p1.cfg);
      }
      EditedAfter(parse, path, start, p1, run[1..]);
    }
  }

  /** The file on disk loads as the setting in memory. */
  predicate DiskAgrees<N(==)>(p: Panel<N>) {
    LoadFile(p.file) == Some(p.cfg)
  }

  lemma RestartAfter<N(!new)>(parse: string -> Option<N>, path: string, start: Panel<N>, run: seq<Attempt>)
    requires InForce(parse, start) && EditableFile(start.file) && Successes(parse, path, start, run) > 0
    ensures var p := HandleAll(parse, path, start, run); Stands(parse, p.rules, p.cfg) && DiskAgrees(p)
  {
    hide Handle, InForce, LoadFile, EditableFile, ReplaceSection, Successes;
    AgreeFrom(parse, path, start, start, run);
    EditedAfter(parse, path, start, start, run);
    EditLoads(start.file, HandleAll(parse, path, start, run).cfg);
  }

  /** Switching the filter on or off succeeds whenever the file can be written at all. */
  lemma ToggleOnce<N>(parse: string -> Option<N>, path: string, start: Panel<N>, b: bool)
    requires InForce(parse, start) && path != "" && ReplaceSection(start.file, start.cfg).Some?
    ensures var run := [Attempt(Toggle(b), true)]; var f := start.cfg.(enable := b);
      && Successes(parse, path, start, run) == 1 && ReplaceSection(start.file, f).Some?
      && HandleAll(parse, path, start, run).cfg == f
      && HandleAll(parse, path, start, run).file == ReplaceSection(start.file, f).value
  {
    hide ReplaceSection, ParseList;
    var f := start.cfg.(enable := b);
    SomeForAllText(start.file, start.cfg, f);
    var a := Attempt(Toggle(b), true);
    var p1 := Handle(parse, path, start, a.req, a.disk);
    assert [a][1..] == [];
    assert HandleAll(parse, path, p1, []) == p1 && Successes(parse, path, p1, []) == 0;
  }

  /** A restart after any history with a successful edit finds the setting that was in force, if and
      only if the original file is editable; whatever the original file itself loads as. */
  lemma RestartFindsSetting<N(!new)>(parse: string -> Option<N>, path: string, start: Panel<N>)
    requires InForce(parse, start) && path != "" && ReplaceSection(start.file, start.cfg).Some?
    ensures EditableFile(start.file) <==>
      forall run :: Successes(parse, path, start, run) > 0 ==> DiskAgrees(HandleAll(parse, path, start, run))
    ensures forall run :: var p := HandleAll(parse, path, start, run); Stands(parse, p.rules, p.cfg)
  {
    forall run ensures var p := HandleAll(parse, path, start, run); Stands(parse, p.rules, p.cfg) {
      AgreeFrom(parse, path, start, start, run);
    }
    hide HandleAll, Successes, InForce, LoadFile, EditableFile, ReplaceSection, Stands;
    if EditableFile(start.file) {
      forall run | Successes(parse, path, start, run) > 0 ensures DiskAgrees(HandleAll(parse, path, start, run)) {
        RestartAfter(parse, path, start, run);
      }
    } else {
      var b := start.cfg.enable;
      EditLoads(start.file, start.cfg);
      ToggleOnce(parse, path, start, b);
      ToggleOnce(parse, path, start, !b);
      assert start.cfg.(enable := b) == start.cfg && start.cfg.(enable := !b) == Flip(start.cfg);
      assert !DiskAgrees(HandleAll(parse, path, start, [Attempt(Toggle(b), true)]))
        || !DiskAgrees(HandleAll(parse, path, start, [Attempt(Toggle(!b), true)]));
    }
  }
}
