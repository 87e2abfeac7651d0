/** What makes a statement a violation, said of the text of the statement and without the
    checker's own functions (c7n/filters/iamaccess.py: PolicyChecker). */
module PolicyVerdicts {
  import opened PolicyChecker
  import opened Sequences
  import opened Text
  import opened Wrappers

  // ----- Accounts

  /** The part of text between its n-th separator and the next. */
  ghost predicate Field(text: string, sep: char, n: nat, field: string) {
    exists before, after :: FieldBetween(text, sep, n, before, field, after)
  }

  ghost predicate FieldBetween(text: string, sep: char, n: nat, before: string, field: string, after: string) {
    && text == before + field + after && sep !in field && multiset(before)[sep] == n
    && (before == "" || before[|before| - 1] == sep) && (after == "" || after[0] == sep)
  }

  /** The account of an arn stands behind the fourth colon; what has fewer is an account itself. */
  ghost predicate NamesAccount(id: string, account: string) {
    if multiset(id)[':'] < 4 then account == id else Field(id, ':', 4, account)
  }

  ghost predicate NamesOneOf(id: string, accounts: set<string>) {
    exists account | account in accounts :: NamesAccount(id, account)
  }

  ghost predicate AllName(ids: seq<string>, accounts: set<string>) {
    forall id | id in ids :: NamesOneOf(id, accounts)
  }

  lemma {:induction false} SplitCounts(s: string, sep: char)
    ensures |Split(s, sep)| == multiset(s)[sep] + 1
  {
    if s != "" {
      SplitCounts(s[1..], sep);
      assert s == [s[0]] + s[1..];
    }
  }

  /** Splitting at the first separator. */
  lemma SplitRest(s: string, sep: char) returns (rest: string)
    requires |Split(s, sep)| > 1
    ensures s == Split(s, sep)[0] + [sep] + rest && sep !in Split(s, sep)[0]
    ensures Split(rest, sep) == Split(s, sep)[1..]
  {
    var parts := Split(s, sep);
    JoinSplit(s, sep);
    rest := Join(parts[1..], [sep]);
    SplitJoin(parts[1..], sep);
  }

  lemma FieldFurther(first_: string, sep: char, rest: string, n: nat, field: string)
    requires sep !in first_ && Field(rest, sep, n, field)
    ensures Field(first_ + [sep] + rest, sep, n + 1, field)
  {
    var before, after :| FieldBetween(rest, sep, n, before, field, after);
    var s, longer := first_ + [sep] + rest, first_ + [sep] + before;
    assert s == longer + field + after;
    assert multiset(longer)[sep] == n + 1;
    assert FieldBetween(s, sep, n + 1, longer, field, after);
  }

  lemma FirstField(field: string, sep: char, after: string)
    requires sep !in field && (after == "" || after[0] == sep)
    ensures Field(field + after, sep, 0, field)
  {
    assert field + after == "" + field + after;
    assert FieldBetween(field + after, sep, 0, "", field, after);
  }

  lemma {:induction false} FieldOfSplit(s: string, sep: char, n: nat)
    requires n < |Split(s, sep)|
    ensures Field(s, sep, n, Split(s, sep)[n])
    decreases n
  {
    var parts := Split(s, sep);
    if |parts| == 1 {
      JoinSplit(s, sep);
      FirstField(s, sep, "");
      assert s + "" == s;
    } else {
      var rest := SplitRest(s, sep);
      if n == 0 {
        FirstField(parts[0], sep, [sep] + rest);
        assert s == parts[0] + ([sep] + rest);
      } else {
        FieldOfSplit(rest, sep, n - 1);
        FieldFurther(parts[0], sep, rest, n - 1, Split(rest, sep)[n - 1]);
      }
    }
  }

  lemma {:induction false} SplitAppend(s: string, sep: char, t: string)
    ensures Split(s + [sep] + t, sep) == Split(s, sep) + Split(t, sep)
    decreases |s|
  {
    var parts := Split(s, sep);
    if |parts| == 1 {
      JoinSplit(s, sep);
      SplitAt(s, sep, t);
    } else {
      var rest := SplitRest(s, sep);
      SplitAppend(rest, sep, t);
      FirstIsSplit(parts[0], sep, rest, t);
      assert parts == [parts[0]] + parts[1..];
    }
  }

  lemma FirstIsSplit(first_: string, sep: char, rest: string, t: string)
    requires sep !in first_ && Split(rest + [sep] + t, sep) == Split(rest, sep) + Split(t, sep)
    ensures Split(first_ + [sep] + rest + [sep] + t, sep) == [first_] + Split(rest, sep) + Split(t, sep)
  {
    SplitAt(first_, sep, rest + [sep] + t);
    assert first_ + [sep] + rest + [sep] + t == first_ + [sep] + (rest + [sep] + t);
  }

  lemma FieldStartsSplit(field: string, after: string, sep: char)
    requires sep !in field && (after == "" || after[0] == sep)
    ensures Split(field + after, sep)[0] == field
  {
    if after == "" {
      assert field + after == field;
      SplitAbsent(field, sep);
    } else {
      assert field + after == field + [sep] + after[1..];
      SplitAt(field, sep, after[1..]);
    }
  }

  /** A field is the part that splitting gives. */
  lemma FieldExact(s: string, sep: char, n: nat, field: string)
    ensures Field(s, sep, n, field) <==> n < |Split(s, sep)| && Split(s, sep)[n] == field
  {
    if n < |Split(s, sep)| {
      FieldOfSplit(s, sep, n);
    }
    forall before, after | FieldBetween(s, sep, n, before, field, after)
      ensures n < |Split(s, sep)| && Split(s, sep)[n] == field
    {
      FieldStartsSplit(field, after, sep);
      assert before + field + after == before + (field + after);
      if before == "" {
        assert before + (field + after) == field + after;
      } else {
        var front := before[..|before| - 1];
        assert before == front + [sep];
        SplitCounts(front, sep);
        SplitAppend(front, sep, field + after);
      }
    }
  }

  lemma AccountExact(id: string, account: string)
    ensures NamesAccount(id, account) <==> Account(id) == account
  {
    SplitCounts(id, ':');
    FieldExact(id, ':', 4, account);
  }

  lemma OneOfExact(id: string, accounts: set<string>)
    ensures NamesOneOf(id, accounts) <==> Account(id) in accounts
  {
    AccountExact(id, Account(id));
    forall account
      ensures NamesAccount(id, account) <==> Account(id) == account
    {
      AccountExact(id, account);
    }
  }

  lemma AllExact(ids: seq<string>, accounts: set<string>)
    ensures AllName(ids, accounts) <==> !AccountsOutside(ids, accounts)
  {
    forall id: string
      ensures NamesOneOf(id, accounts) <==> Account(id) in accounts
    {
      OneOfExact(id, accounts);
    }
  }

  /** The account of an arn with six fields or more, and of anything without colons. */
  lemma AccountOfArn(partition: string, service: string, region: string, account: string, rest: string)
    requires forall field | field in [partition, service, region, account] :: ':' !in field
    ensures NamesAccount("arn:" + partition + ":" + service + ":" + region + ":" + account + ":" + rest, account)
    ensures NamesAccount(account, account)
  {
    var fields := [partition, service, region, account];
    assert fields[0] in fields && fields[1] in fields && fields[2] in fields && fields[3] in fields;
    FourColons(partition, service, region);
    StandsBehind("arn:" + partition + ":" + service + ":" + region + ":", account, rest);
  }

  lemma FourColons(partition: string, service: string, region: string)
    requires ':' !in partition && ':' !in service && ':' !in region
    ensures multiset("arn:" + partition + ":" + service + ":" + region + ":")[':'] == 4
  {
    OneMoreColon("arn:", partition);
    OneMoreColon("arn:" + partition + ":", service);
    OneMoreColon("arn:" + partition + ":" + service + ":", region);
  }

  lemma OneMoreColon(front: string, field: string)
    requires ':' !in field
    ensures multiset(front + field + ":")[':'] == multiset(front)[':'] + 1
  {}

  lemma StandsBehind(before: string, account: string, rest: string)
    requires multiset(before)[':'] == 4 && before[|before| - 1] == ':' && ':' !in account
    ensures NamesAccount(before + account + ":" + rest, account) && NamesAccount(account, account)
  {
    var after := ":" + rest;
    assert before + account + ":" + rest == before + account + after;
    assert FieldBetween(before + account + after, ':', 4, before, account, after);
    FieldIsEnough(before + account + after, account);
  }

  lemma FieldIsEnough(id: string, account: string)
    requires Field(id, ':', 4, account)
    ensures NamesAccount(id, account)
  {
    FieldExact(id, ':', 4, account);
    SplitCounts(id, ':');
  }

  // ----- Principals

  /** The ids of a statement's principals, but for services. */
  ghost predicate Grantee(s: Statement, id: string) {
    match s.principal
    case Missing => false
    case Ids(ids) => id in ids
    case ByType(types) => exists t | t in types && t != "Service" :: id in types[t]
  }

  ghost predicate Outsider(cfg: Config, glob: Glob, id: string) {
    id == "*" ||
    (!cfg.everyoneOnly && !NamesOneOf(id, cfg.allowedAccounts) && !Exempted(cfg, glob, id))
  }

  /** Matching an ignored pattern, or a user of the content delivery network. */
  ghost predicate Exempted(cfg: Config, glob: Glob, id: string) {
    (exists p | p in cfg.whitelistPatterns :: glob(id, p)) ||
    exists rest :: id == "arn:aws:iam::cloudfront:user" + rest
  }

  /** Nobody is named, all but some are, or an outsider is. */
  ghost predicate GrantsOutside(cfg: Config, glob: Glob, s: Statement) {
    || s.notPrincipal
    || s.principal in [Missing, Ids([]), ByType(map[])]
    || exists id :: Grantee(s, id) && Outsider(cfg, glob, id)
  }

  lemma OutsiderExact(cfg: Config, glob: Glob, id: string)
    ensures Outsider(cfg, glob, id) <==> !IdAllowed(cfg, glob, id)
  {
    OneOfExact(id, cfg.allowedAccounts);
    var prefix := "arn:aws:iam::cloudfront:user";
    if StartsWith(id, prefix) {
      assert id == prefix + id[|prefix|..];
    }
  }

  lemma PrincipalExact(cfg: Config, glob: Glob, s: Statement)
    ensures GrantsOutside(cfg, glob, s) <==> PrincipalMatters(cfg, glob, s)
  {
    assert NoPrincipal(s.principal) <==> s.principal in [Missing, Ids([]), ByType(map[])];
    forall id
      ensures Grantee(s, id) <==> id in NonServiceIds(s.principal)
    {}
    forall id
      ensures Outsider(cfg, glob, id) <==> !IdAllowed(cfg, glob, id)
    {
      OutsiderExact(cfg, glob, id);
    }
  }

  // ----- What a statement asks

  ghost predicate LowerCaseOf(text: string, lower: string) {
    |text| == |lower| && forall i | 0 <= i < |text| ::
      lower[i] as int == text[i] as int + if 'A' <= text[i] <= 'Z' then 32 else 0
  }

  ghost predicate Considered(op: string) {
    || op in {"StringEquals", "StringEqualsIgnoreCase", "StringLike", "ArnEquals", "ArnLike", "IpAddress",
              "NotIpAddress"}
    || (exists rest :: op == "ForAllValues" + rest)
    || (exists rest :: op == "ForAnyValue" + rest)
  }

  /** The statement has a condition on a key, under an operator that is considered. */
  ghost predicate Asks(s: Statement, key: string, values: seq<string>) {
    exists block, written: string :: AsksIn(s, block, written, key, values)
  }

  ghost predicate AsksIn(s: Statement, block: OperatorBlock, written: string, key: string, values: seq<string>) {
    && block in s.blocks && Considered(block.op) && (written, values) in block.keys
    && LowerCaseOf(written, key)
  }

  lemma {:induction false} LowerAt(text: string)
    ensures |Lower(text)| == |text|
    ensures forall i | 0 <= i < |text| :: Lower(text)[i] == LowerChar(text[i])
  {
    if text != "" {
      LowerAt(text[1..]);
      assert Lower(text)[1..] == Lower(text[1..]);
      assert forall i | 0 < i < |text| :: text[i] == text[1..][i - 1];
    }
  }

  lemma LowerExact(text: string, lower: string)
    ensures LowerCaseOf(text, lower) <==> Lower(text) == lower
  {
    LowerAt(text);
  }

  lemma ConsideredExact(op: string)
    ensures Considered(op) <==> Tested(op)
    ensures Considered(op) ==> op != ""
  {
    var all, any := "ForAllValues", "ForAnyValue";
    if all <= op {
      assert op == all + op[|all|..];
    }
    if any <= op {
      assert op == any + op[|any|..];
    }
    assert OPERATORS[0] == "StringEquals" && OPERATORS[1] == "StringEqualsIgnoreCase" && OPERATORS[2] == "StringLike";
    assert OPERATORS[3] == "ArnEquals" && OPERATORS[4] == "ArnLike" && OPERATORS[5] == "IpAddress";
    assert OPERATORS[6] == "NotIpAddress";
  }

  lemma {:induction false} OfKeysHas(op: string, keys: seq<(string, seq<string>)>, c: Condition)
    ensures c in OfKeys(op, keys) <==>
              c.op == op && exists written :: (written, c.values) in keys && LowerCaseOf(written, c.key)
  {
    if keys != [] {
      OfKeysHas(op, keys[1..], c);
      LowerExact(keys[0].0, c.key);
      assert keys == [keys[0]] + keys[1..];
      assert keys[0] == (keys[0].0, keys[0].1);
    }
  }

  lemma {:induction false} NormalizedHas(blocks: seq<OperatorBlock>, c: Condition)
    ensures c in Normalized(blocks) <==>
              exists block | block in blocks :: Tested(block.op) && c in OfKeys(block.op, block.keys)
  {
    if blocks != [] {
      NormalizedHas(blocks[1..], c);
      assert blocks == [blocks[0]] + blocks[1..];
    }
  }

  lemma AsksExact(s: Statement, key: string, values: seq<string>)
    ensures Asks(s, key, values) <==> exists c | c in Normalized(s.blocks) :: c.key == key && c.values == values
  {
    if block, written: string :| AsksIn(s, block, written, key, values) {
      var c := Condition(block.op, key, values);
      ConsideredExact(block.op);
      OfKeysHas(block.op, block.keys, c);
      NormalizedHas(s.blocks, c);
    }
    if c :| c in Normalized(s.blocks) && c.key == key && c.values == values {
      NormalizedHas(s.blocks, c);
      var block :| block in s.blocks && Tested(block.op) && c in OfKeys(block.op, block.keys);
      OfKeysHas(block.op, block.keys, c);
      ConsideredExact(block.op);
      var written :| (written, c.values) in block.keys && LowerCaseOf(written, c.key);
      assert AsksIn(s, block, written, key, values);
    }
  }

  lemma AskedOperator(s: Statement, c: Condition)
    requires c in Normalized(s.blocks)
    ensures c.op != ""
  {
    NormalizedHas(s.blocks, c);
    var block :| block in s.blocks && Tested(block.op) && c in OfKeys(block.op, block.keys);
    OfKeysHas(block.op, block.keys, c);
    ConsideredExact(block.op);
  }

  // ----- Spelling of keys

  /** A key is known by its name, where an underscore or a dash may stand for the colon. */
  ghost predicate Spells(key: string, name: string) {
    |key| == |name| && forall i | 0 <= i < |name| :: key[i] == name[i] || (name[i] == ':' && key[i] in "_-")
  }

  lemma {:induction false} HandlerNameAt(key: string)
    ensures |HandlerName(key)| == |key|
    ensures forall i | 0 <= i < |key| :: HandlerName(key)[i] == if key[i] in ":-" then '_' else key[i]
  {
    if key != "" {
      HandlerNameAt(key[1..]);
      assert HandlerName(key)[1..] == HandlerName(key[1..]);
      assert forall i | 0 < i < |key| :: key[i] == key[1..][i - 1];
    }
  }

  /** A name of one word, a colon and another word has the handler named with an underscore. */
  lemma SpellsExact(key: string, name: string, handler: string, service: string, word: string)
    requires name == service + ":" + word && handler == service + "_" + word
    requires forall ch | ch in service + word :: ch !in ":_-"
    ensures Spells(key, name) <==> HandlerName(key) == handler
  {
    HandlerNameAt(key);
    assert |name| == |handler|;
    assert name[|service|] == ':' && handler[|service|] == '_';
    forall i | 0 <= i < |name| && i != |service|
      ensures name[i] == handler[i] && name[i] !in ":_-"
    {
      assert name[i] == handler[i] && name[i] in service + word by {
        if i < |service| {
          assert name[i] == service[i] == handler[i] == (service + word)[i];
        } else {
          assert name[i] == word[i - |service| - 1] == handler[i] == (service + word)[i - 1];
        }
      }
    }
    if |key| == |name| {
      assert HandlerName(key) == handler <==> forall i | 0 <= i < |name| :: HandlerName(key)[i] == handler[i];
    }
  }

  lemma SpellsSourceOwner(key: string)
    ensures Spells(key, "aws:sourceowner") <==> HandlerName(key) == "aws_sourceowner"
  { SpellsExact(key, "aws:sourceowner", "aws_sourceowner", "aws", "sourceowner"); }

  lemma SpellsSourceAccount(key: string)
    ensures Spells(key, "aws:sourceaccount") <==> HandlerName(key) == "aws_sourceaccount"
  { SpellsExact(key, "aws:sourceaccount", "aws_sourceaccount", "aws", "sourceaccount"); }

  lemma SpellsSourceArn(key: string)
    ensures Spells(key, "aws:sourcearn") <==> HandlerName(key) == "aws_sourcearn"
  { SpellsExact(key, "aws:sourcearn", "aws_sourcearn", "aws", "sourcearn"); }

  lemma SpellsPrincipalArn(key: string)
    ensures Spells(key, "aws:principalarn") <==> HandlerName(key) == "aws_principalarn"
  { SpellsExact(key, "aws:principalarn", "aws_principalarn", "aws", "principalarn"); }

  lemma SpellsPrincipalAccount(key: string)
    ensures Spells(key, "aws:principalaccount") <==> HandlerName(key) == "aws_principalaccount"
  { SpellsExact(key, "aws:principalaccount", "aws_principalaccount", "aws", "principalaccount"); }

  lemma AccessPointNames()
    ensures "s3:dataaccesspointaccount" == "s3" + ":" + "dataaccesspointaccount"
    ensures "s3_dataaccesspointaccount" == "s3" + "_" + "dataaccesspointaccount"
  {}

  lemma SpellsAccessPointAccount(key: string)
    ensures Spells(key, "s3:dataaccesspointaccount") <==> HandlerName(key) == "s3_dataaccesspointaccount"
  {
    AccessPointNames();
    SpellsExact(key, "s3:dataaccesspointaccount", "s3_dataaccesspointaccount", "s3", "dataaccesspointaccount");
  }

  lemma SpellsSourceIp(key: string)
    ensures Spells(key, "aws:sourceip") <==> HandlerName(key) == "aws_sourceip"
  { SpellsExact(key, "aws:sourceip", "aws_sourceip", "aws", "sourceip"); }

  lemma SpellsSourceVpce(key: string)
    ensures Spells(key, "aws:sourcevpce") <==> HandlerName(key) == "aws_sourcevpce"
  { SpellsExact(key, "aws:sourcevpce", "aws_sourcevpce", "aws", "sourcevpce"); }

  lemma SpellsSourceVpc(key: string)
    ensures Spells(key, "aws:sourcevpc") <==> HandlerName(key) == "aws_sourcevpc"
  { SpellsExact(key, "aws:sourcevpc", "aws_sourcevpc", "aws", "sourcevpc"); }

  lemma SpellsPrincipalOrgid(key: string)
    ensures Spells(key, "aws:principalorgid") <==> HandlerName(key) == "aws_principalorgid"
  { SpellsExact(key, "aws:principalorgid", "aws_principalorgid", "aws", "principalorgid"); }

  lemma SpellsResourceOrgid(key: string)
    ensures Spells(key, "aws:resourceorgid") <==> HandlerName(key) == "aws_resourceorgid"
  { SpellsExact(key, "aws:resourceorgid", "aws_resourceorgid", "aws", "resourceorgid"); }

  lemma SpellsPrincipalOrgPaths(key: string)
    ensures Spells(key, "aws:principalorgpaths") <==> HandlerName(key) == "aws_principalorgpaths"
  { SpellsExact(key, "aws:principalorgpaths", "aws_principalorgpaths", "aws", "principalorgpaths"); }

  // ----- What a key is about

  datatype Subject = Accounts | Anywhere | Endpoint | Network | Organization | Owner | Unit

  ghost predicate About(key: string, subject: Subject) {
    match subject
    case Accounts =>
      || Spells(key, "aws:sourceowner") || Spells(key, "aws:sourceaccount") || Spells(key, "aws:sourcearn")
      || Spells(key, "aws:principalarn") || Spells(key, "aws:principalaccount")
      || Spells(key, "s3:dataaccesspointaccount")
    case Anywhere => Spells(key, "aws:sourceip")
    case Endpoint => Spells(key, "aws:sourcevpce")
    case Network => Spells(key, "aws:sourcevpc")
    case Organization => Spells(key, "aws:principalorgid")
    case Owner => Spells(key, "aws:resourceorgid")
    case Unit => Spells(key, "aws:principalorgpaths")
  }

  function SubjectOf(handler: string): Option<Subject> {
    if IsAccountHandler(handler) then Some(Accounts)
    else if handler == "aws_sourceip" then Some(Anywhere)
    else if handler == "aws_sourcevpce" then Some(Endpoint)
    else if handler == "aws_sourcevpc" then Some(Network)
    else if handler == "aws_principalorgid" then Some(Organization)
    else if handler == "aws_resourceorgid" then Some(Owner)
    else if handler == "aws_principalorgpaths" then Some(Unit)
    else None
  }

  lemma HandlersDiffer(handler: string)
    ensures handler == "aws_sourceip" ==> SubjectOf(handler) == Some(Anywhere)
    ensures handler == "aws_sourcevpce" ==> SubjectOf(handler) == Some(Endpoint)
    ensures handler == "aws_sourcevpc" ==> SubjectOf(handler) == Some(Network)
    ensures handler == "aws_principalorgid" ==> SubjectOf(handler) == Some(Organization)
    ensures handler == "aws_resourceorgid" ==> SubjectOf(handler) == Some(Owner)
    ensures handler == "aws_principalorgpaths" ==> SubjectOf(handler) == Some(Unit)
  {
    assert "aws_sourcevpc"[10] == 'v' && "aws_sourcearn"[10] == 'a';
    assert "aws_resourceorgid"[4] == 'r' && "aws_sourceaccount"[4] == 's';
  }

  lemma AboutAccountExact(key: string)
    ensures About(key, Accounts) <==> IsAccountHandler(HandlerName(key))
  {
    SpellsSourceOwner(key);
    SpellsSourceAccount(key);
    SpellsSourceArn(key);
    SpellsPrincipalArn(key);
    SpellsPrincipalAccount(key);
    SpellsAccessPointAccount(key);
  }

  lemma AboutExact(key: string, subject: Subject)
    ensures About(key, subject) <==> SubjectOf(HandlerName(key)) == Some(subject)
  {
    HandlersDiffer(HandlerName(key));
    match subject
    case Accounts => AboutAccountExact(key);
    case Anywhere => SpellsSourceIp(key);
    case Endpoint => SpellsSourceVpce(key);
    case Network => SpellsSourceVpc(key);
    case Organization => SpellsPrincipalOrgid(key);
    case Owner => SpellsResourceOrgid(key);
    case Unit => SpellsPrincipalOrgPaths(key);
  }

  // ----- Paths of organizational units

  /** A unit's path without the slashes at its ends. */
  ghost predicate Bare(path: string, bare: string) {
    exists before, after :: BareBetween(path, before, bare, after)
  }

  ghost predicate BareBetween(path: string, before: string, bare: string, after: string) {
    && path == before + bare + after && Slashes(before) && Slashes(after)
    && (bare == "" || (bare[0] != '/' && bare[|bare| - 1] != '/'))
  }

  ghost predicate Slashes(s: string) {
    forall i | 0 <= i < |s| :: s[i] == '/'
  }

  /** The path starts in an allowed organization, or in that of an allowed unit and passes the unit. */
  ghost predicate PathCovered(cfg: Config, path: string) {
    exists segments :: Cut(path, segments, '/') &&
      (segments[0] in cfg.allowedOrgid || exists unit | unit in cfg.allowedOrgUnits :: PassesUnit(segments, unit))
  }

  /** The unit's path starts in the same organization, and its last name comes later in the other. */
  ghost predicate PassesUnit(segments: seq<string>, unit: string)
    requires segments != []
  {
    exists bare, names :: UnitNames(unit, bare, names) &&
      names[0] == segments[0] && names[|names| - 1] in segments[1..]
  }

  ghost predicate UnitNames(unit: string, bare: string, names: seq<string>) {
    Bare(unit, bare) && Cut(bare, names, '/')
  }

  lemma {:induction false} StrippedIsBare(path: string)
    ensures Bare(path, Stripped(path))
    decreases |path|
  {
    var bare := Stripped(path);
    if path != "" && path[0] == '/' {
      StrippedIsBare(path[1..]);
      var before, after :| BareBetween(path[1..], before, bare, after);
      assert path == (['/'] + before) + bare + after;
      assert BareBetween(path, ['/'] + before, bare, after);
    } else if path != "" && path[|path| - 1] == '/' {
      StrippedIsBare(path[..|path| - 1]);
      var before, after :| BareBetween(path[..|path| - 1], before, bare, after);
      assert path == before + bare + (after + ['/']);
      assert BareBetween(path, before, bare, after + ['/']);
    } else {
      assert path == "" + path + "";
      assert BareBetween(path, "", path, "");
    }
  }

  lemma {:induction false} OneBare(path: string, before: string, bare: string, after: string)
    requires BareBetween(path, before, bare, after)
    ensures Stripped(path) == bare
    decreases |path|
  {
    if before != "" {
      assert path[1..] == before[1..] + bare + after;
      OneBare(path[1..], before[1..], bare, after);
    } else if bare == "" {
      if after != "" {
        assert path[1..] == "" + bare + after[1..];
        OneBare(path[1..], "", bare, after[1..]);
      }
    } else if after != "" {
      var shorter := after[..|after| - 1];
      assert path[..|path| - 1] == "" + bare + shorter && path[0] == bare[0];
      OneBare(path[..|path| - 1], "", bare, shorter);
    } else {
      assert path == bare;
    }
  }

  lemma BareExact(path: string, bare: string)
    ensures Bare(path, bare) <==> Stripped(path) == bare
  {
    StrippedIsBare(path);
    forall before, after | BareBetween(path, before, bare, after)
      ensures Stripped(path) == bare
    {
      OneBare(path, before, bare, after);
    }
  }

  lemma PassesUnitExact(segments: seq<string>, unit: string)
    requires segments != []
    ensures PassesUnit(segments, unit) <==> UnitCovers(Split(Stripped(unit), '/'), segments)
  {
    forall bare, names
      ensures UnitNames(unit, bare, names) <==> bare == Stripped(unit) && names == Split(bare, '/')
    {
      BareExact(unit, bare);
      CutExact(bare, names, '/');
    }
    assert UnitNames(unit, Stripped(unit), Split(Stripped(unit), '/'));
  }

  lemma PathExact(cfg: Config, path: string)
    ensures PathCovered(cfg, path) <==> OrgPathAllowed(cfg, path)
  {
    var segments := Split(path, '/');
    forall others
      ensures Cut(path, others, '/') <==> others == segments
    {
      CutExact(path, others, '/');
    }
    forall unit
      ensures PassesUnit(segments, unit) <==> UnitCovers(Split(Stripped(unit), '/'), segments)
    {
      PassesUnitExact(segments, unit);
    }
  }

  // ----- When a condition is met

  ghost predicate Trusted(cfg: Config, key: string) {
    exists written | written in cfg.whitelistConditions :: LowerCaseOf(written, key)
  }

  ghost predicate Limits(cfg: Config, subject: Subject, values: seq<string>) {
    match subject
    case Accounts => AllName(values, cfg.allowedAccounts)
    case Anywhere => true
    case Endpoint => cfg.allowedVpce == {} || AllName(values, cfg.allowedVpce)
    case Network => cfg.allowedVpc == {} || AllName(values, cfg.allowedVpc)
    case Organization => cfg.allowedOrgid != {} && AllName(values, cfg.allowedOrgid)
    case Owner => AllName(values, cfg.allowedOrgid)
    case Unit => (cfg.allowedOrgid != {} || cfg.allowedOrgUnits != {}) && forall v | v in values :: PathCovered(cfg, v)
  }

  ghost predicate Meets(cfg: Config, key: string, values: seq<string>) {
    Trusted(cfg, key) || exists subject :: About(key, subject) && Limits(cfg, subject, values)
  }

  /** Known, but not met; a condition that is unknown is neither. */
  ghost predicate Misses(cfg: Config, key: string, values: seq<string>) {
    !Trusted(cfg, key) && exists subject :: About(key, subject) && !Limits(cfg, subject, values)
  }

  lemma TrustedExact(cfg: Config, key: string)
    ensures Trusted(cfg, key) <==> Whitelisted(cfg, key)
  {
    forall written
      ensures LowerCaseOf(written, key) <==> Lower(written) == key
    {
      LowerExact(written, key);
    }
  }

  lemma PathsExact(cfg: Config, paths: seq<string>)
    ensures (forall path | path in paths :: PathCovered(cfg, path)) <==>
              !exists path | path in paths :: !OrgPathAllowed(cfg, path)
  {
    forall path | path in paths
      ensures PathCovered(cfg, path) <==> OrgPathAllowed(cfg, path)
    {
      PathExact(cfg, path);
    }
  }

  lemma LimitsExact(cfg: Config, c: Condition, subject: Subject)
    requires SubjectOf(HandlerName(c.key)) == Some(subject)
    ensures Handler(cfg, c) == Some(!Limits(cfg, subject, c.values))
  {
    match subject
    case Accounts => AllExact(c.values, cfg.allowedAccounts);
    case Anywhere =>
    case Endpoint => AllExact(c.values, cfg.allowedVpce);
    case Network => AllExact(c.values, cfg.allowedVpc);
    case Organization => AllExact(c.values, cfg.allowedOrgid);
    case Owner => AllExact(c.values, cfg.allowedOrgid);
    case Unit => PathsExact(cfg, c.values);
  }

  lemma ConditionExact(cfg: Config, c: Condition)
    requires c.op != ""
    ensures HandleCondition(cfg, c) == Some(true) <==> Meets(cfg, c.key, c.values)
    ensures HandleCondition(cfg, c) == Some(false) <==> Misses(cfg, c.key, c.values)
  {
    TrustedExact(cfg, c.key);
    forall subject
      ensures About(c.key, subject) <==> SubjectOf(HandlerName(c.key)) == Some(subject)
    {
      AboutExact(c.key, subject);
    }
    var subject := SubjectOf(HandlerName(c.key));
    if subject.Some? {
      assert About(c.key, subject.value);
      LimitsExact(cfg, c, subject.value);
    }
  }

  // ----- The verdict

  /** Some action is of interest; the statement's actions are patterns for the configured names. */
  ghost predicate ActionCounts(cfg: Config, glob: Glob, s: Statement) {
    cfg.checkActions == {} || exists a, name :: a in s.actions && name in cfg.checkActions && glob(name, a)
  }

  ghost predicate Conditional(s: Statement) {
    exists key, values :: Asks(s, key, values)
  }

  /** A condition on an organization is met. */
  ghost predicate InOrganization(cfg: Config, s: Statement) {
    exists key, values :: Asks(s, key, values) && Meets(cfg, key, values) &&
      key in {"aws:principalorgid", "aws:resourceorgid", "aws:principalorgpaths"}
  }

  /** The condition is on a principal and names only wildcards and allowed accounts. */
  ghost predicate NamesNobody(cfg: Config, key: string, values: seq<string>) {
    && key in {"aws:principalarn", "aws:principalaccount", "aws:sourceaccount", "aws:sourcearn",
               "s3:dataaccesspointaccount"}
    && forall v | v in values :: '*' in v || NamesOneOf(v, cfg.allowedAccounts)
  }

  ghost predicate Suffices(cfg: Config, s: Statement, key: string, values: seq<string>) {
    Meets(cfg, key, values) || (Misses(cfg, key, values) && InOrganization(cfg, s) && NamesNobody(cfg, key, values))
  }

  /** There are conditions, and each is met or excused by the organization. */
  ghost predicate Restricted(cfg: Config, s: Statement) {
    Conditional(s) && forall key, values :: Asks(s, key, values) ==> Suffices(cfg, s, key, values)
  }

  lemma JudgeExact(cfg: Config, s: Statement, c: Condition)
    requires c in Normalized(s.blocks)
    ensures Asks(s, c.key, c.values)
    ensures Judge(cfg, c).result == Some(true) <==> Meets(cfg, c.key, c.values)
    ensures Judge(cfg, c).result == Some(false) <==> Misses(cfg, c.key, c.values)
    ensures Judge(cfg, c).nobodyNew <==> NamesNobody(cfg, c.key, c.values)
  {
    AskedOperator(s, c);
    AsksExact(s, c.key, c.values);
    ConditionExact(cfg, c);
    forall v | v in c.values
      ensures NamesOneOf(v, cfg.allowedAccounts) <==> Account(v) in cfg.allowedAccounts
    {
      OneOfExact(v, cfg.allowedAccounts);
    }
  }

  lemma OrganizationExact(cfg: Config, s: Statement)
    ensures InOrganization(cfg, s) <==> OrgHolds(Judging(cfg), Normalized(s.blocks))
  {
    if OrgHolds(Judging(cfg), Normalized(s.blocks)) {
      var c :| c in Normalized(s.blocks) && Judging(cfg)(c).result == Some(true) && Judging(cfg)(c).org;
      JudgeExact(cfg, s, c);
    }
    if InOrganization(cfg, s) {
      var key, values :| Asks(s, key, values) && Meets(cfg, key, values) && key in ORG_KEYS;
      AsksExact(s, key, values);
      var c :| c in Normalized(s.blocks) && c.key == key && c.values == values;
      JudgeExact(cfg, s, c);
      assert Judging(cfg)(c).org;
    }
  }

  lemma SufficesExact(cfg: Config, s: Statement, c: Condition)
    requires c in Normalized(s.blocks)
    ensures Suffices(cfg, s, c.key, c.values) <==>
              Passes(Judging(cfg)(c), OrgHolds(Judging(cfg), Normalized(s.blocks)))
  {
    JudgeExact(cfg, s, c);
    OrganizationExact(cfg, s);
  }

  lemma RestrictedExact(cfg: Config, s: Statement)
    ensures Restricted(cfg, s) <==> Excused(Judging(cfg), Normalized(s.blocks))
  {
    var conditions := Normalized(s.blocks);
    forall c | c in conditions
      ensures Asks(s, c.key, c.values)
      ensures Suffices(cfg, s, c.key, c.values) <==> Passes(Judging(cfg)(c), OrgHolds(Judging(cfg), conditions))
    {
      JudgeExact(cfg, s, c);
      SufficesExact(cfg, s, c);
    }
    forall key, values | Asks(s, key, values)
      ensures exists c :: c in conditions && c.key == key && c.values == values
    {
      AsksExact(s, key, values);
    }
    if conditions != [] {
      assert conditions[0] in conditions;
    }
  }

  /** The verdict on every statement under every configuration: what is allowed is a grant to
      outsiders, of an action of interest, without conditions that restrict it. */
  lemma ViolatesExactlyWhen(cfg: Config, glob: Glob, s: Statement)
    ensures Violates(cfg, glob, s) <==>
              s.allow && GrantsOutside(cfg, glob, s) && ActionCounts(cfg, glob, s) && !Restricted(cfg, s)
  {
    PrincipalExact(cfg, glob, s);
    RestrictedExact(cfg, s);
  }

  // ----- Statements open to anyone

  /** Without a condition that is considered, a grant to "*" is a violation under every configuration. */
  lemma OpenToAllViolates(cfg: Config, glob: Glob, s: Statement)
    requires s.allow && ActionCounts(cfg, glob, s) && !Conditional(s)
    requires Grantee(s, "*") || s.notPrincipal || s.principal in [Missing, Ids([]), ByType(map[])]
    ensures Violates(cfg, glob, s)
  {
    ViolatesExactlyWhen(cfg, glob, s);
    assert Outsider(cfg, glob, "*");
  }

  /** A grant to one id that no pattern exempts turns on the id's account alone. */
  lemma OneIdViolates(cfg: Config, glob: Glob, s: Statement, id: string, account: string)
    requires s.allow && ActionCounts(cfg, glob, s) && !Conditional(s) && !s.notPrincipal
    requires id != "*" && forall other :: Grantee(s, other) <==> other == id
    requires NamesAccount(id, account) && !Exempted(cfg, glob, id)
    ensures Violates(cfg, glob, s) <==> !cfg.everyoneOnly && account !in cfg.allowedAccounts
  {
    ViolatesExactlyWhen(cfg, glob, s);
    AccountExact(id, account);
    OneOfExact(id, cfg.allowedAccounts);
    assert Grantee(s, id);
  }

  // ----- Statements with one condition

  /** A statement that is a violation unless its conditions restrict it. */
  ghost predicate Open(cfg: Config, glob: Glob, s: Statement) {
    s.allow && GrantsOutside(cfg, glob, s) && ActionCounts(cfg, glob, s)
  }

  ghost predicate AsksOnly(s: Statement, key: string, values: seq<string>) {
    forall k, v :: Asks(s, k, v) <==> k == key && v == values
  }

  lemma OneSubject(key: string, a: Subject, b: Subject)
    requires About(key, a) && About(key, b)
    ensures a == b
  {
    AboutExact(key, a);
    AboutExact(key, b);
  }

  lemma NotBoth(cfg: Config, key: string, values: seq<string>)
    ensures !(Meets(cfg, key, values) && Misses(cfg, key, values))
  {
    forall a, b | About(key, a) && About(key, b)
      ensures a == b
    {
      OneSubject(key, a, b);
    }
  }

  lemma OneConditionDecides(cfg: Config, glob: Glob, s: Statement, key: string, values: seq<string>)
    requires Open(cfg, glob, s) && AsksOnly(s, key, values)
    ensures Violates(cfg, glob, s) <==> !Meets(cfg, key, values)
  {
    ViolatesExactlyWhen(cfg, glob, s);
    NotBoth(cfg, key, values);
    assert Asks(s, key, values);
  }

  /** Unless the condition's key is trusted, what its key is about decides. */
  lemma OneSubjectDecides(cfg: Config, glob: Glob, s: Statement, key: string, values: seq<string>, subject: Subject)
    requires Open(cfg, glob, s) && AsksOnly(s, key, values) && !Trusted(cfg, key) && About(key, subject)
    ensures Violates(cfg, glob, s) <==> !Limits(cfg, subject, values)
  {
    OneConditionDecides(cfg, glob, s, key, values);
    forall other | About(key, other)
      ensures other == subject
    {
      OneSubject(key, other, subject);
    }
  }

  /** The verdict on one condition by its key. */
  lemma KeyDecides(cfg: Config, glob: Glob, s: Statement, key: string, values: seq<string>)
    requires Open(cfg, glob, s) && AsksOnly(s, key, values) && !Trusted(cfg, key)
    ensures key in {"aws:sourceowner", "aws:sourceaccount", "aws:sourcearn", "aws:principalarn",
                    "aws:principalaccount", "s3:dataaccesspointaccount"} ==>
              (Violates(cfg, glob, s) <==> exists v | v in values :: !NamesOneOf(v, cfg.allowedAccounts))
    ensures key == "aws:sourceip" ==> !Violates(cfg, glob, s)
    ensures key == "aws:sourcevpce" ==>
              (Violates(cfg, glob, s) <==>
               cfg.allowedVpce != {} && exists v | v in values :: !NamesOneOf(v, cfg.allowedVpce))
    ensures key == "aws:sourcevpc" ==>
              (Violates(cfg, glob, s) <==>
               cfg.allowedVpc != {} && exists v | v in values :: !NamesOneOf(v, cfg.allowedVpc))
    ensures key == "aws:principalorgid" ==>
              (Violates(cfg, glob, s) <==>
               cfg.allowedOrgid == {} || exists v | v in values :: !NamesOneOf(v, cfg.allowedOrgid))
    ensures key == "aws:resourceorgid" ==>
              (Violates(cfg, glob, s) <==> exists v | v in values :: !NamesOneOf(v, cfg.allowedOrgid))
    ensures key == "aws:principalorgpaths" ==>
              (Violates(cfg, glob, s) <==>
               (cfg.allowedOrgid == {} && cfg.allowedOrgUnits == {}) ||
               exists v | v in values :: !PathCovered(cfg, v))
    ensures (forall subject :: !About(key, subject)) ==> Violates(cfg, glob, s)
  {
    OneConditionDecides(cfg, glob, s, key, values);
    forall subject | About(key, subject)
      ensures Violates(cfg, glob, s) <==> !Limits(cfg, subject, values)
    {
      OneSubjectDecides(cfg, glob, s, key, values, subject);
    }
    assert Spells(key, key);
    if key in {"aws:sourceowner", "aws:sourceaccount", "aws:sourcearn", "aws:principalarn", "aws:principalaccount",
               "s3:dataaccesspointaccount"} {
      assert About(key, Accounts);
      assert Limits(cfg, Accounts, values) <==> !exists v | v in values :: !NamesOneOf(v, cfg.allowedAccounts);
    }
    assert key == "aws:sourceip" ==> About(key, Anywhere);
    assert key == "aws:sourcevpce" ==> About(key, Endpoint);
    assert key == "aws:sourcevpc" ==> About(key, Network);
    assert key == "aws:principalorgid" ==> About(key, Organization);
    assert key == "aws:resourceorgid" ==> About(key, Owner);
    assert key == "aws:principalorgpaths" ==> About(key, Unit);
  }

  // ----- An organization and one more condition

  ghost predicate AsksBoth(s: Statement, org: string, orgs: seq<string>, key: string, values: seq<string>) {
    forall k, v :: Asks(s, k, v) <==> (k == org && v == orgs) || (k == key && v == values)
  }

  /** Next to an organization that is allowed, only an outsider's own name in a condition on the
      principal is a violation; a condition on anything else still has to be met. */
  lemma OrganizationExcuses(cfg: Config, glob: Glob, s: Statement, org: string, orgs: seq<string>, key: string,
                            values: seq<string>)
    requires Open(cfg, glob, s) && AsksBoth(s, org, orgs, key, values) && Meets(cfg, org, orgs)
    requires org in {"aws:principalorgid", "aws:resourceorgid", "aws:principalorgpaths"}
    ensures key in {"aws:principalarn", "aws:principalaccount", "aws:sourceaccount", "aws:sourcearn",
                    "s3:dataaccesspointaccount"} ==>
              (Violates(cfg, glob, s) <==>
               !Trusted(cfg, key) && exists v | v in values :: '*' !in v && !NamesOneOf(v, cfg.allowedAccounts))
    ensures key !in {"aws:principalarn", "aws:principalaccount", "aws:sourceaccount", "aws:sourcearn",
                     "s3:dataaccesspointaccount"} ==>
              (Violates(cfg, glob, s) <==> !Meets(cfg, key, values))
  {
    ViolatesExactlyWhen(cfg, glob, s);
    assert Asks(s, org, orgs) && Asks(s, key, values);
    assert Violates(cfg, glob, s) <==> !Suffices(cfg, s, key, values);
    if key in {"aws:principalarn", "aws:principalaccount", "aws:sourceaccount", "aws:sourcearn",
               "s3:dataaccesspointaccount"} {
      assert Spells(key, key);
      assert About(key, Accounts);
      forall other | About(key, other)
        ensures other == Accounts
      {
        OneSubject(key, other, Accounts);
      }
      assert Limits(cfg, Accounts, values) <==> forall v | v in values :: NamesOneOf(v, cfg.allowedAccounts);
    }
  }
}
