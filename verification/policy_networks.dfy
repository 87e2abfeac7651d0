/** The lists of private networks of the policy checker (c7n/filters/iamaccess.py:
    handle_aws_sourcevpc, handle_aws_sourcevpce). An empty list allows every network, so these
    lists are the one part of a configuration whose growth can make violations. */
module PolicyNetworks {
  import opened PolicyChecker
  import opened Sequences
  import opened Text
  import opened Wrappers

  datatype Network = Vpc | VpcEndpoint

  function Networks(cfg: Config, kind: Network): set<string> {
    if kind.Vpc? then cfg.allowedVpc else cfg.allowedVpce
  }

  function WithNetworks(cfg: Config, kind: Network, networks: set<string>): Config {
    if kind.Vpc? then cfg.(allowedVpc := networks) else cfg.(allowedVpce := networks)
  }

  function NetworkHandler(kind: Network): string {
    if kind.Vpc? then "aws_sourcevpc" else "aws_sourcevpce"
  }

  /** Every key that reaches the handler of these networks is a whitelisted condition. There are
      three: the handler's name does not tell '_' from ':' and '-'. */
  ghost predicate Exempt(cfg: Config, kind: Network) {
    forall key | HandlerName(key) == NetworkHandler(kind) :: Whitelisted(cfg, key)
  }

  /** There is an action that is checked. */
  ghost predicate SomeActionMatters(cfg: Config, glob: Glob) {
    cfg.checkActions == {} || exists a, name | name in cfg.checkActions :: glob(name, a)
  }

  /** Changing the list from less to more makes no statement a violation. */
  ghost predicate SafeToChange(cfg: Config, glob: Glob, kind: Network, less: set<string>, more: set<string>) {
    forall s :: Violates(WithNetworks(cfg, kind, more), glob, s) ==> Violates(WithNetworks(cfg, kind, less), glob, s)
  }

  lemma HandlerOfNetworks(cfg: Config, kind: Network, c: Condition)
    requires HandlerName(c.key) == NetworkHandler(kind)
    ensures Handler(cfg, c) == Some(Networks(cfg, kind) != {} && AccountsOutside(c.values, Networks(cfg, kind)))
  {
    var name := HandlerName(c.key);
    assert |name| == if kind.Vpc? then 13 else 14;
    assert name[10] == 'v' && "aws_sourcearn"[10] == 'a';
  }

  lemma HandlerOfOthers(cfg: Config, kind: Network, networks: set<string>, c: Condition)
    requires HandlerName(c.key) != NetworkHandler(kind)
    ensures Handler(WithNetworks(cfg, kind, networks), c) == Handler(cfg, c)
  {
    var other := WithNetworks(cfg, kind, networks);
    forall path: string
      ensures OrgPathAllowed(other, path) == OrgPathAllowed(cfg, path)
    {}
  }

  /** The list counts only in the conditions on these networks. */
  lemma OnlyNetworksDiffer(cfg: Config, kind: Network, networks: set<string>, glob: Glob, s: Statement)
    ensures PrincipalMatters(WithNetworks(cfg, kind, networks), glob, s) == PrincipalMatters(cfg, glob, s)
    ensures ActionMatters(WithNetworks(cfg, kind, networks), glob, s) == ActionMatters(cfg, glob, s)
    ensures forall key :: Whitelisted(WithNetworks(cfg, kind, networks), key) == Whitelisted(cfg, key)
    ensures forall c :: NamesNobodyNew(WithNetworks(cfg, kind, networks), c) == NamesNobodyNew(cfg, c)
  {
    var other := WithNetworks(cfg, kind, networks);
    forall pid: string
      ensures IdAllowed(other, glob, pid) == IdAllowed(cfg, glob, pid)
    {}
  }

  // ----- When growth is safe

  lemma ExemptIsSafe(cfg: Config, glob: Glob, kind: Network, less: set<string>, more: set<string>)
    requires Exempt(cfg, kind)
    ensures SafeToChange(cfg, glob, kind, less, more)
  {
    var a, b := WithNetworks(cfg, kind, less), WithNetworks(cfg, kind, more);
    forall s | Violates(b, glob, s)
      ensures Violates(a, glob, s)
    {
      OnlyNetworksDiffer(cfg, kind, less, glob, s);
      OnlyNetworksDiffer(cfg, kind, more, glob, s);
      forall c: Condition
        ensures Judging(a)(c) == Judging(b)(c)
      {
        if HandlerName(c.key) != NetworkHandler(kind) {
          HandlerOfOthers(cfg, kind, less, c);
          HandlerOfOthers(cfg, kind, more, c);
        }
      }
      if Excused(Judging(a), Normalized(s.blocks)) {
        ExcusedStill(Judging(a), Judging(b), Normalized(s.blocks));
      }
    }
  }

  lemma WideningIsSafe(cfg: Config, glob: Glob, kind: Network, less: set<string>, more: set<string>)
    requires Widened(less, more)
    ensures SafeToChange(cfg, glob, kind, less, more)
  {
    forall s | Violates(WithNetworks(cfg, kind, more), glob, s)
      ensures Violates(WithNetworks(cfg, kind, less), glob, s)
    {
      LargerViolatesLess(WithNetworks(cfg, kind, less), WithNetworks(cfg, kind, more), glob, s);
    }
  }

  lemma UncheckedIsSafe(cfg: Config, glob: Glob, kind: Network, less: set<string>, more: set<string>)
    requires !SomeActionMatters(cfg, glob)
    ensures SafeToChange(cfg, glob, kind, less, more)
  {
    forall s
      ensures !Violates(WithNetworks(cfg, kind, more), glob, s)
    {
      OnlyNetworksDiffer(cfg, kind, more, glob, s);
    }
  }

  // ----- When it is not

  /** A statement whose one condition names another network is allowed by the empty list and a
      violation under any other. */
  lemma NamingNetworksForbidsOthers(cfg: Config, glob: Glob, kind: Network, s: Statement, c: Condition,
                                    more: set<string>)
    requires Normalized(s.blocks) == [c] && c.op != "" && HandlerName(c.key) == NetworkHandler(kind)
    requires !Whitelisted(cfg, c.key) && AccountsOutside(c.values, more) && more != {}
    requires PrincipalMatters(cfg, glob, s) && s.allow && ActionMatters(cfg, glob, s)
    ensures !Violates(WithNetworks(cfg, kind, {}), glob, s) && Violates(WithNetworks(cfg, kind, more), glob, s)
  {
    var none, some := WithNetworks(cfg, kind, {}), WithNetworks(cfg, kind, more);
    OnlyNetworksDiffer(cfg, kind, {}, glob, s);
    OnlyNetworksDiffer(cfg, kind, more, glob, s);
    HandlerOfNetworks(none, kind, c);
    HandlerOfNetworks(some, kind, c);
    assert Judging(none)(c).result == Some(true) && Judging(some)(c).result == Some(false);
    assert c in [c] && !OrgHolds(Judging(some), [c]);
  }

  function Repeated(n: nat): string {
    if n == 0 then "" else "x" + Repeated(n - 1)
  }

  lemma {:induction false} RepeatedIsPlain(n: nat)
    ensures |Repeated(n)| == n && ':' !in Repeated(n)
  {
    if n > 0 {
      RepeatedIsPlain(n - 1);
    }
  }

  lemma {:induction false} Bounded(networks: set<string>) returns (n: nat)
    ensures forall name | name in networks :: |name| <= n
    decreases |networks|
  {
    n := 0;
    if networks != {} {
      var name :| name in networks;
      var rest := Bounded(networks - {name});
      n := rest + |name|;
    }
  }

  /** A network that is on no given list. */
  lemma OutsideName(networks: set<string>) returns (name: string)
    ensures Account(name) !in networks
  {
    var n := Bounded(networks);
    name := Repeated(n + 1);
    RepeatedIsPlain(n + 1);
    SplitAbsent(name, ':');
  }

  lemma {:induction false} LowerFixed(key: string)
    requires forall ch | ch in HandlerName(key) :: !('A' <= ch <= 'Z')
    ensures Lower(key) == key
  {
    if key != "" {
      var rest := HandlerName(key)[1..];
      assert rest == HandlerName(key[1..]);
      assert HandlerName(key)[0] in HandlerName(key) && forall ch | ch in rest :: ch in HandlerName(key);
      LowerFixed(key[1..]);
      assert [key[0]] + key[1..] == key;
    }
  }

  lemma NetworkKeyIsLower(key: string, kind: Network)
    requires HandlerName(key) == NetworkHandler(kind)
    ensures Lower(key) == key
  {
    LowerFixed(key);
  }

  /** The statement that grants everyone access from one network. */
  function FromNetwork(key: string, name: string, actions: seq<string>): Statement {
    Statement(false, Missing, true, actions, [OperatorBlock("StringEquals", [(key, [name])])])
  }

  lemma FromNetworkCondition(key: string, name: string, actions: seq<string>)
    requires Lower(key) == key
    ensures Normalized(FromNetwork(key, name, actions).blocks) == [Condition("StringEquals", key, [name])]
  {
    var keys := [(key, [name])];
    var blocks := [OperatorBlock("StringEquals", keys)];
    assert OPERATORS[0] == "StringEquals" && Tested("StringEquals");
    assert keys[1..] == [] && blocks[1..] == [];
    assert OfKeys("StringEquals", keys) == [Condition("StringEquals", key, [name])];
  }

  lemma FirstNetworkIsUnsafe(cfg: Config, glob: Glob, kind: Network, more: set<string>)
    requires more != {} && !Exempt(cfg, kind) && SomeActionMatters(cfg, glob)
    ensures !SafeToChange(cfg, glob, kind, {}, more)
  {
    var key :| HandlerName(key) == NetworkHandler(kind) && !Whitelisted(cfg, key);
    var actions: seq<string> := [];
    if cfg.checkActions != {} {
      var a, name :| name in cfg.checkActions && glob(name, a);
      actions := [a];
      assert a in actions;
    }
    var name := OutsideName(more);
    var s := FromNetwork(key, name, actions);
    NetworkKeyIsLower(key, kind);
    FromNetworkCondition(key, name, actions);
    var c := Condition("StringEquals", key, [name]);
    assert name in c.values && Account(name) !in more;
    NamingNetworksForbidsOthers(cfg, glob, kind, s, c, more);
  }

  /** Enlarging a list of private networks is safe exactly when it is not a first network, or
      when its conditions are whitelisted in every spelling, or when no action is checked. */
  lemma NetworksMayGrow(cfg: Config, glob: Glob, kind: Network, less: set<string>, more: set<string>)
    requires less <= more
    ensures SafeToChange(cfg, glob, kind, less, more) <==>
              (less == {} ==> more == {}) || Exempt(cfg, kind) || !SomeActionMatters(cfg, glob)
  {
    if less == {} ==> more == {} {
      WideningIsSafe(cfg, glob, kind, less, more);
    } else if Exempt(cfg, kind) {
      ExemptIsSafe(cfg, glob, kind, less, more);
    } else if !SomeActionMatters(cfg, glob) {
      UncheckedIsSafe(cfg, glob, kind, less, more);
    } else {
      FirstNetworkIsUnsafe(cfg, glob, kind, more);
    }
  }
}
