/** Which statements of a resource policy grant access that is not allowed
    (c7n/filters/iamaccess.py: PolicyChecker). */
module PolicyChecker {
  import opened Sequences
  import opened Text
  import opened Wrappers

  /** checker_config; a key that is not configured is an empty set. */
  datatype Config = Config(
    allowedAccounts: set<string>, everyoneOnly: bool, checkActions: set<string>, whitelistConditions: set<string>,
    allowedVpce: set<string>, allowedVpc: set<string>, allowedOrgid: set<string>, allowedOrgUnits: set<string>,
    whitelistPatterns: set<string>, returnAllowed: bool)

  /** Missing also stands for an empty string; a single string is a list of one. */
  datatype Principal = Missing | Ids(ids: seq<string>) | ByType(types: map<string, seq<string>>)

  /** The keys one operator tests, with the values of each. */
  datatype OperatorBlock = OperatorBlock(op: string, keys: seq<(string, seq<string>)>)

  datatype Statement = Statement(
    notPrincipal: bool, principal: Principal, allow: bool, actions: seq<string>, blocks: seq<OperatorBlock>)

  /** One normalized condition. */
  datatype Condition = Condition(op: string, key: string, values: seq<string>)

  /** Whether a name matches a shell pattern. */
  type Glob = (string, string) -> bool

  // ----- Strings

  function LowerChar(c: char): char {
    if 'A' <= c <= 'Z' then c - 'A' + 'a' else c
  }

  function Lower(s: string): string {
    if s == "" then "" else [LowerChar(s[0])] + Lower(s[1..])
  }

  predicate StartsWith(s: string, prefix: string) {
    prefix <= s
  }

  /** _account: the fifth colon-separated field of an arn, and any shorter string itself. */
  function Account(arn: string): string {
    var fields := Split(arn, ':');
    if |fields| < 5 then arn else fields[4]
  }

  /** A path without slashes at its ends. */
  function Stripped(s: string): string {
    if s != "" && s[0] == '/' then Stripped(s[1..])
    else if s != "" && s[|s| - 1] == '/' then Stripped(s[..|s| - 1])
    else s
  }

  // ----- Principals

  /** Every id but those under the Service type. */
  function NonServiceIds(p: Principal): set<string> {
    match p
    case Missing => {}
    case Ids(ids) => set id | id in ids
    case ByType(types) => set t, id | t in types && t != "Service" && id in types[t] :: id
  }

  predicate IdAllowed(cfg: Config, glob: Glob, pid: string) {
    pid != "*" &&
    (cfg.everyoneOnly
     || StartsWith(pid, "arn:aws:iam::cloudfront:user")
     || (exists p | p in cfg.whitelistPatterns :: glob(pid, p))
     || Account(pid) in cfg.allowedAccounts)
  }

  predicate NoPrincipal(p: Principal) {
    p.Missing? || (p.Ids? && p.ids == []) || (p.ByType? && p.types == map[])
  }

  /** The statement's principals are not all allowed. A statement whose only principals are
      services is never a violation. */
  predicate PrincipalMatters(cfg: Config, glob: Glob, s: Statement) {
    s.notPrincipal || NoPrincipal(s.principal) ||
    exists pid | pid in NonServiceIds(s.principal) :: !IdAllowed(cfg, glob, pid)
  }

  /** handle_principal */
  method HandlePrincipal(cfg: Config, glob: Glob, s: Statement) returns (matters: bool)
    ensures matters == PrincipalMatters(cfg, glob, s)
  {
    if s.notPrincipal || NoPrincipal(s.principal) {
      return true;
    }
    var types := if s.principal.Ids? then map["AWS" := s.principal.ids] else s.principal.types;
    var nonService := Gather(types);
    if s.principal.Ids? {
      assert forall id | id in s.principal.ids :: id in types["AWS"];
      assert nonService == NonServiceIds(s.principal);
    }
    if nonService == {} {
      return false;
    }
    var ok := AllIdsAllowed(cfg, glob, nonService);
    matters := !ok;
  }

  /** The loop over the ids, which come in no particular order. */
  method AllIdsAllowed(cfg: Config, glob: Glob, ids: set<string>) returns (ok: bool)
    ensures ok <==> forall pid | pid in ids :: IdAllowed(cfg, glob, pid)
  {
    ok := true;
    var rest := ids;
    ghost var seen: set<string> := {};
    while rest != {}
      invariant seen + rest == ids
      invariant ok <==> forall pid | pid in seen :: IdAllowed(cfg, glob, pid)
      decreases |rest|
    {
      var pid :| pid in rest;
      if pid == "*" {
        ok := false;
      } else if cfg.everyoneOnly {
      } else if StartsWith(pid, "arn:aws:iam::cloudfront:user") {
      } else if exists p | p in cfg.whitelistPatterns :: glob(pid, p) {
      } else if Account(pid) !in cfg.allowedAccounts {
        ok := false;
      }
      OneMoreId(cfg, glob, seen, pid);
      seen := seen + {pid};
      rest := rest - {pid};
    }
    assert seen == ids;
  }

  lemma OneMoreId(cfg: Config, glob: Glob, seen: set<string>, pid: string)
    ensures (forall p | p in seen + {pid} :: IdAllowed(cfg, glob, p)) <==>
            (forall p | p in seen :: IdAllowed(cfg, glob, p)) && IdAllowed(cfg, glob, pid)
  {}

  /** The set the ids of every type but Service are merged into. */
  method Gather(types: map<string, seq<string>>) returns (ids: set<string>)
    ensures ids == NonServiceIds(ByType(types))
  {
    ids := {};
    var rest := types.Keys - {"Service"};
    while rest != {}
      invariant rest <= types.Keys - {"Service"}
      invariant ids == set t, id | t in types && t != "Service" && t !in rest && id in types[t] :: id
      decreases |rest|
    {
      var t :| t in rest;
      ids := ids + (set id | id in types[t]);
      rest := rest - {t};
    }
  }

  // ----- Conditions

  const OPERATORS := [
    "StringEquals", "StringEqualsIgnoreCase", "StringLike", "ArnEquals", "ArnLike", "IpAddress", "NotIpAddress"]

  const ORG_KEYS := {"aws:principalorgid", "aws:resourceorgid", "aws:principalorgpaths"}

  const PRINCIPAL_KEYS := {
    "aws:principalarn", "aws:principalaccount", "aws:sourceaccount", "aws:sourcearn", "s3:dataaccesspointaccount"}

  predicate Tested(op: string) {
    op in OPERATORS || StartsWith(op, "ForAllValues") || StartsWith(op, "ForAnyValue")
  }

  function OfKeys(op: string, keys: seq<(string, seq<string>)>): seq<Condition> {
    if keys == [] then [] else [Condition(op, Lower(keys[0].0), keys[0].1)] + OfKeys(op, keys[1..])
  }

  /** normalize_conditions */
  function Normalized(blocks: seq<OperatorBlock>): seq<Condition> {
    if blocks == [] then []
    else (if Tested(blocks[0].op) then OfKeys(blocks[0].op, blocks[0].keys) else []) + Normalized(blocks[1..])
  }

  predicate AccountsOutside(values: seq<string>, allowed: set<string>) {
    exists v | v in values :: Account(v) !in allowed
  }

  /** _org_path_allowed */
  predicate OrgPathAllowed(cfg: Config, path: string) {
    var segments := Split(path, '/');
    segments[0] in cfg.allowedOrgid ||
    exists unit | unit in cfg.allowedOrgUnits :: UnitCovers(Split(Stripped(unit), '/'), segments)
  }

  predicate UnitCovers(unit: seq<string>, segments: seq<string>)
    requires unit != [] && segments != []
  {
    unit[0] == segments[0] && unit[|unit| - 1] in segments[1..]
  }

  function HandlerName(key: string): string {
    if key == "" then "" else [if key[0] == '-' || key[0] == ':' then '_' else key[0]] + HandlerName(key[1..])
  }

  predicate IsAccountHandler(name: string) {
    name == "aws_sourceowner" || name == "aws_sourceaccount" || name == "aws_sourcearn" ||
    name == "aws_principalarn" || name == "aws_principalaccount" || name == "s3_dataaccesspointaccount"
  }

  /** The condition's handler: whether it finds a violation, or None if there is no handler. */
  function Handler(cfg: Config, c: Condition): Option<bool> {
    var name := HandlerName(c.key);
    if IsAccountHandler(name) then Some(AccountsOutside(c.values, cfg.allowedAccounts))
    else if name == "aws_sourceip" then Some(false)
    else if name == "aws_sourcevpce" then
      Some(cfg.allowedVpce != {} && AccountsOutside(c.values, cfg.allowedVpce))
    else if name == "aws_sourcevpc" then
      Some(cfg.allowedVpc != {} && AccountsOutside(c.values, cfg.allowedVpc))
    else if name == "aws_principalorgid" then
      Some(cfg.allowedOrgid == {} || AccountsOutside(c.values, cfg.allowedOrgid))
    else if name == "aws_resourceorgid" then Some(AccountsOutside(c.values, cfg.allowedOrgid))
    else if name == "aws_principalorgpaths" then
      Some((cfg.allowedOrgid == {} && cfg.allowedOrgUnits == {}) || exists v | v in c.values :: !OrgPathAllowed(cfg, v))
    else None
  }

  predicate Whitelisted(cfg: Config, key: string) {
    exists w | w in cfg.whitelistConditions :: Lower(w) == key
  }

  /** handle_condition: whether the condition excuses the statement; None if it is unknown. */
  function HandleCondition(cfg: Config, c: Condition): Option<bool> {
    if c.op == "" then Some(false)
    else if Whitelisted(cfg, c.key) then Some(true)
    else
      match Handler(cfg, c)
      case None => None
      case Some(violation) => Some(!violation)
  }

  /** A failed principal condition that names nobody new: a wildcard or an allowed account. */
  predicate NamesNobodyNew(cfg: Config, c: Condition) {
    c.key in PRINCIPAL_KEYS && forall v | v in c.values :: '*' in v || Account(v) in cfg.allowedAccounts
  }

  /** What handle_conditions takes into account of one condition. */
  datatype Judgement = Judgement(result: Option<bool>, org: bool, nobodyNew: bool)

  function Judge(cfg: Config, c: Condition): Judgement {
    Judgement(HandleCondition(cfg, c), c.key in ORG_KEYS, NamesNobodyNew(cfg, c))
  }

  function Judging(cfg: Config): Condition -> Judgement {
    c => Judge(cfg, c)
  }

  predicate OrgHolds(judge: Condition -> Judgement, conditions: seq<Condition>) {
    exists c | c in conditions :: judge(c).result == Some(true) && judge(c).org
  }

  predicate Passes(j: Judgement, org: bool) {
    j.result == Some(true) || (j.result == Some(false) && org && j.nobodyNew)
  }

  /** The conditions excuse the statement: all are known, and each either holds or, where an
      organization condition holds, is a principal condition that names nobody new. */
  predicate Excused(judge: Condition -> Judgement, conditions: seq<Condition>) {
    conditions != [] && forall c | c in conditions :: Passes(judge(c), OrgHolds(judge, conditions))
  }

  /** The first loop of handle_conditions: a result per condition, or None at an unknown one. */
  method Results(judge: Condition -> Judgement, conditions: seq<Condition>)
    returns (results: Option<seq<bool>>, org: bool)
    ensures results.None? ==> exists c | c in conditions :: judge(c).result.None?
    ensures results.Some? ==> |results.value| == |conditions| && org == OrgHolds(judge, conditions)
    ensures results.Some? ==> forall i | 0 <= i < |conditions| :: judge(conditions[i]).result == Some(results.value[i])
  {
    var done: seq<bool> := [];
    org := false;
    for i := 0 to |conditions|
      invariant |done| == i
      invariant forall j | 0 <= j < i :: judge(conditions[j]).result == Some(done[j])
      invariant org <==> exists j | 0 <= j < i :: done[j] && judge(conditions[j]).org
    {
      var j := judge(conditions[i]);
      if j.result.None? {
        return None, org;
      }
      if j.result.value && j.org {
        org := true;
      }
      done := done + [j.result.value];
    }
    results := Some(done);
  }

  /** handle_conditions */
  method HandleConditions(judge: Condition -> Judgement, conditions: seq<Condition>) returns (excused: bool)
    ensures excused == Excused(judge, conditions)
  {
    if conditions == [] {
      return false;
    }
    var results, org := Results(judge, conditions);
    if results.None? {
      return false;
    }
    if forall i | 0 <= i < |conditions| :: results.value[i] {
      return true;
    }
    if org {
      for i := 0 to |conditions|
        invariant forall j | 0 <= j < i :: Passes(judge(conditions[j]), org)
      {
        if !results.value[i] && !judge(conditions[i]).nobodyNew {
          return false;
        }
      }
      return true;
    }
    ghost var i :| 0 <= i < |conditions| && !results.value[i];
    assert !Passes(judge(conditions[i]), org);
    return false;
  }

  // ----- Statements

  /** handle_action; the configured action is the name, the statement's the pattern. */
  predicate ActionMatters(cfg: Config, glob: Glob, s: Statement) {
    cfg.checkActions == {} || exists a, name | a in s.actions && name in cfg.checkActions :: glob(name, a)
  }

  /** handle_statement */
  predicate Violates(cfg: Config, glob: Glob, s: Statement) {
    && PrincipalMatters(cfg, glob, s) && s.allow && ActionMatters(cfg, glob, s)
    && !Excused(Judging(cfg), Normalized(s.blocks))
  }

  function Violating(cfg: Config, glob: Glob): Statement -> bool {
    s => Violates(cfg, glob, s)
  }

  /** The statements check lists as violations, and the others. */
  function Violations(cfg: Config, glob: Glob, ss: seq<Statement>): seq<Statement> {
    Select(ss, Violating(cfg, glob))
  }

  function Allowed(cfg: Config, glob: Glob, ss: seq<Statement>): seq<Statement> {
    Select(ss, Not(Violating(cfg, glob)))
  }

  /** check */
  method Check(cfg: Config, glob: Glob, ss: seq<Statement>) returns (found: seq<Statement>)
    ensures found == if cfg.returnAllowed then Allowed(cfg, glob, ss) else Violations(cfg, glob, ss)
  {
    var allowed, violations: seq<Statement> := [], [];
    for i := 0 to |ss|
      invariant allowed == Allowed(cfg, glob, ss[..i]) && violations == Violations(cfg, glob, ss[..i])
    {
      assert ss[..i + 1][..i] == ss[..i];
      var matters := HandlePrincipal(cfg, glob, ss[i]);
      var violation := matters && ss[i].allow && ActionMatters(cfg, glob, ss[i]);
      if violation {
        var excused := HandleConditions(Judging(cfg), Normalized(ss[i].blocks));
        violation := !excused;
      }
      if violation {
        violations := violations + [ss[i]];
      } else {
        allowed := allowed + [ss[i]];
      }
    }
    assert ss[..|ss|] == ss;
    found := if cfg.returnAllowed then allowed else violations;
  }

  /** The two lists split the statements between them. */
  lemma CheckPartitions(cfg: Config, glob: Glob, ss: seq<Statement>, s: Statement)
    ensures multiset(Allowed(cfg, glob, ss)) + multiset(Violations(cfg, glob, ss)) == multiset(ss)
    ensures s in Violations(cfg, glob, ss) <==> s in ss && Violates(cfg, glob, s)
    ensures s in Allowed(cfg, glob, ss) <==> s in ss && !Violates(cfg, glob, s)
  {
    var violating := Violating(cfg, glob);
    SelectPartitions(ss, violating);
    SelectHas(ss, violating, s);
    SelectHas(ss, Not(violating), s);
  }

  // ----- Order of the conditions

  ghost predicate SameElements<T(!new)>(a: seq<T>, b: seq<T>) {
    forall x :: x in a <==> x in b
  }

  /** A statement's verdict does not depend on the order of its conditions, nor on repeats. */
  lemma OrderOfConditions(cfg: Config, glob: Glob, s: Statement, blocks: seq<OperatorBlock>)
    requires SameElements(Normalized(s.blocks), Normalized(blocks))
    ensures Violates(cfg, glob, s) <==> Violates(cfg, glob, s.(blocks := blocks))
  {
    var a, b := Normalized(s.blocks), Normalized(blocks);
    assert a == [] <==> b == [] by {
      if a != [] {
        assert a[0] in b;
      }
      if b != [] {
        assert b[0] in a;
      }
    }
    assert OrgHolds(Judging(cfg), a) <==> OrgHolds(Judging(cfg), b);
  }

  // ----- Larger configurations

  /** A list of private networks may grow only from a list that is not empty: an empty one
      allows them all. */
  predicate Widened(a: set<string>, b: set<string>) {
    a == b || (a != {} && a <= b)
  }

  /** b allows everything a does. */
  predicate Larger(a: Config, b: Config) {
    && a.allowedAccounts <= b.allowedAccounts && a.whitelistPatterns <= b.whitelistPatterns
    && a.allowedOrgid <= b.allowedOrgid && a.allowedOrgUnits <= b.allowedOrgUnits
    && a.whitelistConditions <= b.whitelistConditions
    && (a.everyoneOnly ==> b.everyoneOnly) && a.checkActions == b.checkActions
    && Widened(a.allowedVpce, b.allowedVpce) && Widened(a.allowedVpc, b.allowedVpc)
  }

  lemma JudgedNoWorse(a: Config, b: Config, c: Condition)
    requires Larger(a, b)
    ensures HandleCondition(a, c) == Some(true) ==> HandleCondition(b, c) == Some(true)
    ensures HandleCondition(a, c).Some? ==> HandleCondition(b, c).Some?
    ensures NamesNobodyNew(a, c) ==> NamesNobodyNew(b, c)
  {
    if Whitelisted(a, c.key) {
      assert Whitelisted(b, c.key);
    }
    forall v | v in c.values && OrgPathAllowed(a, v)
      ensures OrgPathAllowed(b, v)
    {}
  }

  /** Judging every condition no worse keeps an excuse. */
  lemma ExcusedStill(worse: Condition -> Judgement, better: Condition -> Judgement, conditions: seq<Condition>)
    requires Excused(worse, conditions)
    requires forall c :: worse(c).result == Some(true) ==> better(c).result == Some(true)
    requires forall c :: worse(c).result.Some? ==> better(c).result.Some?
    requires forall c :: worse(c).org == better(c).org && (worse(c).nobodyNew ==> better(c).nobodyNew)
    ensures Excused(better, conditions)
  {
    if OrgHolds(worse, conditions) {
      assert OrgHolds(better, conditions);
    }
    forall c | c in conditions
      ensures Passes(better(c), OrgHolds(better, conditions))
    {
      assert Passes(worse(c), OrgHolds(worse, conditions));
      var held := better(c).result.value;
      assert held || !held;
    }
  }

  /** Enlarging what is allowed never turns a statement into a violation. */
  lemma LargerViolatesLess(a: Config, b: Config, glob: Glob, s: Statement)
    requires Larger(a, b) && Violates(b, glob, s)
    ensures Violates(a, glob, s)
  {
    if Excused(Judging(a), Normalized(s.blocks)) {
      forall c: Condition
        ensures Judging(a)(c).result == Some(true) ==> Judging(b)(c).result == Some(true)
        ensures Judging(a)(c).result.Some? ==> Judging(b)(c).result.Some?
        ensures Judging(a)(c).org == Judging(b)(c).org && (Judging(a)(c).nobodyNew ==> Judging(b)(c).nobodyNew)
      {
        JudgedNoWorse(a, b, c);
      }
      ExcusedStill(Judging(a), Judging(b), Normalized(s.blocks));
    }
    if !s.notPrincipal && !NoPrincipal(s.principal) {
      var pid :| pid in NonServiceIds(s.principal) && !IdAllowed(b, glob, pid);
      assert !IdAllowed(a, glob, pid);
    }
  }

  /** The larger configuration's violations are among the smaller one's, in the same order. */
  lemma LargerFindsSubsequence(a: Config, b: Config, glob: Glob, ss: seq<Statement>)
    requires Larger(a, b)
    ensures Subsequence(Violations(b, glob, ss), Violations(a, glob, ss))
  {
    forall s | s in ss && Violates(b, glob, s)
      ensures Violates(a, glob, s)
    {
      LargerViolatesLess(a, b, glob, s);
    }
    SelectLess(ss, Violating(b, glob), Violating(a, glob));
  }
}
