/**
 Conditional allow/deny rules: three-valued conditions, their conjunction, and the
 deny-overrides decision taken over an unordered set of roles.
 */
module Rules {
  import opened Basics

  /**
   An attribute value as the engine sees it: by whether it has a JSON encoding, the text of
   that encoding, and whether the text is a number or an array.
   */
  datatype Value =
    | Invalid
    | Number(text: string, amount: real)
    | List(text: string, items: seq<Value>)
    | Other(text: string)

  type Attributes = map<string, Value>

  datatype Operator =
    | Eq | Ne | Gt | Ge | Lt | Le | In | NotIn | Exists | NotExists
    | UnknownOperator(name: string)

  datatype Condition = Condition(attribute: string, operator: Operator, value: Option<Value>, otherAttribute: string)

  datatype Effect = Allow | Deny | UnknownEffect(name: string)

  datatype PolicyRule = PolicyRule(effect: Effect, resource: string, action: string, conditions: seq<Condition>)

  datatype Permission = Permission(resource: string, action: string)

  /** The value has a JSON encoding. */
  predicate Marshals(v: Value) {
    match v
    case Invalid => false
    case List(_, items) => forall i :: 0 <= i < |items| ==> Marshals(items[i])
    case _ => true
  }

  const NULL: Value := Other("null")

  function StringValue(s: string): Value {
    Other("\"" + s + "\"")
  }

  predicate ValidCondition(c: Condition) {
    && !Blank(c.attribute)
    && (c.otherAttribute != "" ==> c.value.None?)
    && (match c.operator
        case Eq | Ne | Gt | Ge | Lt | Le => true
        case In | NotIn => c.otherAttribute == "" ==> c.value.Some? && c.value.value.List? && Marshals(c.value.value)
        case Exists | NotExists => c.value.None? && c.otherAttribute == ""
        case UnknownOperator(_) => false)
    && (c.value.Some? ==> Marshals(c.value.value))
  }

  predicate ValidRule(r: PolicyRule) {
    && (r.effect == Allow || r.effect == Deny)
    && !Blank(r.resource) && !Blank(r.action)
    && forall i :: 0 <= i < |r.conditions| ==> ValidCondition(r.conditions[i])
  }

  predicate ValidRules(rules: seq<PolicyRule>) {
    forall i :: 0 <= i < |rules| ==> ValidRule(rules[i])
  }

  predicate EqualAttribute(a: Value, b: Value) {
    if a.Number? then b.Number? && a.amount == b.amount
    else Marshals(a) && Marshals(b) && a.text == b.text
  }

  /** One condition, as the pair (match, known) the source returns. */
  function ConditionMatches(c: Condition, attrs: Attributes): (r: (bool, bool))
    ensures r.0 ==> r.1
  {
    var present := c.attribute in attrs;
    if present && !Marshals(attrs[c.attribute]) then (false, false)
    else if c.operator == Exists then (present, true)
    else if c.operator == NotExists then (!present, true)
    else if !present then (false, false)
    else if c.otherAttribute != "" && c.otherAttribute !in attrs then (false, false)
    else
      var value := attrs[c.attribute];
      var expected :=
        if c.otherAttribute != "" then attrs[c.otherAttribute]
        else if c.value.Some? then c.value.value else NULL;
      if !Marshals(expected) then (false, false) else Compare(c.operator, value, expected)
  }

  function Compare(op: Operator, value: Value, expected: Value): (r: (bool, bool))
    ensures r.0 ==> r.1
  {
    match op
    case Eq => (EqualAttribute(value, expected), true)
    case Ne => (!EqualAttribute(value, expected), true)
    case In | NotIn =>
      if !expected.List? then (false, false)
      else
        var found := exists i :: 0 <= i < |expected.items| && EqualAttribute(value, expected.items[i]);
        (if op == NotIn then !found else found, true)
    case Gt | Ge | Lt | Le =>
      if !value.Number? || !expected.Number? then (false, false)
      else
        var x, y := value.amount, expected.amount;
        ((match op case Gt => x > y case Ge => x >= y case Lt => x < y case _ => x <= y), true)
    case _ => (false, false)
  }

  datatype Truth = True | False | Unknown

  function TruthOf(r: (bool, bool)): Truth {
    if !r.1 then Unknown else if r.0 then True else False
  }

  /** Strong Kleene conjunction of two truth values. */
  function And(a: Truth, b: Truth): Truth {
    if a.False? || b.False? then False
    else if a.Unknown? || b.Unknown? then Unknown
    else True
  }

  /** Conjunction of a whole list, by folding the binary operation. */
  function AndAll(ts: seq<Truth>): Truth {
    if ts == [] then True else And(ts[0], AndAll(ts[1..]))
  }

  /** The fold depends only on which truth values occur. */
  lemma {:induction false} AndAllByMembership(ts: seq<Truth>)
    ensures AndAll(ts) == if False in ts then False else if Unknown in ts then Unknown else True
  {
    if ts != [] {
      AndAllByMembership(ts[1..]);
      assert ts == [ts[0]] + ts[1..];
    }
  }

  function Truths(conditions: seq<Condition>, attrs: Attributes): (ts: seq<Truth>)
    ensures |ts| == |conditions|
  {
    seq(|conditions|, i requires 0 <= i < |conditions| => TruthOf(ConditionMatches(conditions[i], attrs)))
  }

  function Conjunction(conditions: seq<Condition>, attrs: Attributes): Truth {
    AndAll(Truths(conditions, attrs))
  }

  /** The early-exit loop computes strong Kleene conjunction. */
  method ConditionsMatch(conditions: seq<Condition>, attrs: Attributes) returns (matches: bool, known: bool)
    ensures TruthOf((matches, known)) == Conjunction(conditions, attrs)
    ensures matches ==> known
  {
    var ts := Truths(conditions, attrs);
    AndAllByMembership(ts);
    known := true;
    for i := 0 to |conditions|
      invariant False !in ts[..i]
      invariant known <==> Unknown !in ts[..i]
    {
      var r := ConditionMatches(conditions[i], attrs);
      assert ts[i] == TruthOf(r);
      if r.1 && !r.0 {
        return false, true;
      }
      known := known && r.1;
      assert ts[..i + 1] == ts[..i] + [ts[i]];
    }
    assert ts[..|conditions|] == ts;
    return known, known;
  }

  /** Reordering (or repeating) conditions never changes the outcome. */
  lemma ConjunctionOrderIndependent(c1: seq<Condition>, c2: seq<Condition>, attrs: Attributes)
    requires Elements(c1) == Elements(c2)
    ensures Conjunction(c1, attrs) == Conjunction(c2, attrs)
  {
    var t1, t2 := Truths(c1, attrs), Truths(c2, attrs);
    AndAllByMembership(t1);
    AndAllByMembership(t2);
    TruthsInclude(c1, c2, attrs);
    TruthsInclude(c2, c1, attrs);
  }

  lemma TruthsInclude(c1: seq<Condition>, c2: seq<Condition>, attrs: Attributes)
    requires Elements(c1) <= Elements(c2)
    ensures forall t :: t in Truths(c1, attrs) ==> t in Truths(c2, attrs)
  {
    forall t | t in Truths(c1, attrs) ensures t in Truths(c2, attrs) {
      var i :| 0 <= i < |c1| && Truths(c1, attrs)[i] == t;
      assert c1[i] in Elements(c1);
      var j :| 0 <= j < |c2| && c2[j] == c1[i];
      assert Truths(c2, attrs)[j] == t;
    }
  }

  // ---- The decision over roles ----

  predicate MatchPermission(ps: set<Permission>, wildcards: bool, resource: string, action: string) {
    || Permission(resource, action) in ps
    || (wildcards && (Permission(resource, "*") in ps || Permission("*", action) in ps || Permission("*", "*") in ps))
  }

  predicate RuleMatches(rule: PolicyRule, wildcards: bool, resource: string, action: string) {
    && (rule.resource == resource || (wildcards && rule.resource == "*"))
    && (rule.action == action || (wildcards && rule.action == "*"))
  }

  /** What is asked: the wildcard setting, the resource and the action. */
  datatype Request = Request(wildcards: bool, resource: string, action: string)

  predicate Applies(rule: PolicyRule, q: Request) {
    RuleMatches(rule, q.wildcards, q.resource, q.action)
  }

  function Facts(attrs: Attributes, user: string, tenant: string): Attributes {
    attrs["subject.id" := StringValue(user)]["tenant.id" := StringValue(tenant)]
  }

  /** The rule vetoes the request: a deny that matches or cannot be ruled out. */
  predicate Vetoes(rule: PolicyRule, q: Request, facts: Attributes) {
    rule.effect == Deny && Applies(rule, q) && Conjunction(rule.conditions, facts) != False
  }

  predicate Grants(rule: PolicyRule, q: Request, facts: Attributes) {
    rule.effect == Allow && Applies(rule, q) && Conjunction(rule.conditions, facts) == True
  }

  predicate AnyVetoes(rules: seq<PolicyRule>, q: Request, facts: Attributes) {
    exists i :: 0 <= i < |rules| && Vetoes(rules[i], q, facts)
  }

  predicate AnyGrants(rules: seq<PolicyRule>, q: Request, facts: Attributes) {
    exists i :: 0 <= i < |rules| && Grants(rules[i], q, facts)
  }

  /** The role's rule list can be read and is valid; `stored` lacks roles whose read fails. */
  predicate Readable(stored: map<string, seq<PolicyRule>>, name: string) {
    name in stored && ValidRules(stored[name])
  }

  /** The order-free meaning of a decision over the given roles. */
  predicate Permits(roles: set<string>, stored: map<string, seq<PolicyRule>>, base: bool, q: Request, facts: Attributes) {
    && (forall n :: n in roles ==> Readable(stored, n))
    && (forall n :: n in roles ==> !AnyVetoes(stored[n], q, facts))
    && (base || exists n :: n in roles && AnyGrants(stored[n], q, facts))
  }

  datatype Decision = Decided(allowed: bool) | Failed

  /**
   The evaluation loop. The roles are visited in an arbitrary order and the loop leaves at
   the first veto or failed read; which of "denied" and "failed" is reported may depend on
   the order, but permission does not.
   */
  method EvaluateRules(roles: set<string>, stored: map<string, seq<PolicyRule>>, base: bool, q: Request, facts: Attributes)
    returns (d: Decision)
    ensures d == Decided(true) <==> Permits(roles, stored, base, q, facts)
    ensures d == Failed ==> exists n :: n in roles && !Readable(stored, n)
    ensures d == Decided(false) ==>
      || (exists n :: n in roles && Readable(stored, n) && AnyVetoes(stored[n], q, facts))
      || forall n :: n in roles ==> Readable(stored, n)
  {
    var allowed := base;
    var todo := roles;
    while todo != {}
      invariant todo <= roles
      invariant forall n :: n in roles - todo ==> Readable(stored, n) && !AnyVetoes(stored[n], q, facts)
      invariant allowed <==> base || exists n :: n in roles - todo && AnyGrants(stored[n], q, facts)
    {
      var name :| name in todo;
      if name !in stored || !ValidRules(stored[name]) {
        return Failed;
      }
      var vetoed, granted := EvaluateRole(stored[name], q, facts);
      if vetoed {
        return Decided(false);
      }
      ghost var before := roles - todo;
      todo := todo - {name};
      assert roles - todo == before + {name};
      allowed := allowed || granted;
    }
    return Decided(allowed);
  }

  /** The inner loop over one role's rules, leaving at the first veto. */
  method EvaluateRole(rules: seq<PolicyRule>, q: Request, facts: Attributes) returns (vetoed: bool, granted: bool)
    requires ValidRules(rules)
    ensures vetoed <==> AnyVetoes(rules, q, facts)
    ensures !vetoed ==> (granted <==> AnyGrants(rules, q, facts))
  {
    granted := false;
    for i := 0 to |rules|
      invariant forall j :: 0 <= j < i ==> !Vetoes(rules[j], q, facts)
      invariant granted <==> exists j :: 0 <= j < i && Grants(rules[j], q, facts)
    {
      var vetoes, grants := JudgeRule(rules[i], q, facts);
      if vetoes {
        return true, granted;
      }
      granted := granted || grants;
    }
    return false, granted;
  }

  /** One rule that is about the request. */
  method JudgeRule(rule: PolicyRule, q: Request, facts: Attributes) returns (vetoes: bool, grants: bool)
    ensures vetoes == Vetoes(rule, q, facts) && grants == Grants(rule, q, facts)
  {
    if !Applies(rule, q) {
      return false, false;
    }
    var matches, known := ConditionsMatch(rule.conditions, facts);
    return rule.effect == Deny && (matches || !known), rule.effect == Allow && matches;
  }

  // ---- More facts never take an allow away ----

  /** Every supplied fact keeps its value; more facts may be present. */
  predicate Extends(fewer: Attributes, more: Attributes) {
    forall k :: k in fewer ==> k in more && more[k] == fewer[k]
  }

  /** The condition keeps the truth value `v` when facts are added. */
  ghost predicate Keeps(c: Condition, v: Truth) {
    forall fewer, more :: Extends(fewer, more) && TruthOf(ConditionMatches(c, fewer)) == v ==>
      TruthOf(ConditionMatches(c, more)) == v
  }

  /** A true condition can only be undone by a new fact if it demands a fact's absence. */
  lemma TruthSurvivesIff(c: Condition)
    ensures Keeps(c, True) <==> c.operator != NotExists
  {
    if c.operator == NotExists {
      var fewer: Attributes, more: Attributes := map[], map[c.attribute := NULL];
      assert Extends(fewer, more) && TruthOf(ConditionMatches(c, fewer)) == True;
      assert TruthOf(ConditionMatches(c, more)) == False;
    }
  }

  /** A false condition can only be undone by a new fact if it demands a fact's presence. */
  lemma FalsehoodSurvivesIff(c: Condition)
    ensures Keeps(c, False) <==> c.operator != Exists
  {
    if c.operator == Exists {
      var fewer: Attributes, more: Attributes := map[], map[c.attribute := NULL];
      assert Extends(fewer, more) && TruthOf(ConditionMatches(c, fewer)) == False;
      assert TruthOf(ConditionMatches(c, more)) == True;
    }
  }

  /** The operator that could make more facts hurt: absence in an allow, presence in a deny. */
  predicate Withholds(rule: PolicyRule) {
    forall i :: 0 <= i < |rule.conditions| ==>
      rule.conditions[i].operator != (if rule.effect == Deny then Exists else NotExists)
  }

  lemma TrueConjunctionStays(conditions: seq<Condition>, fewer: Attributes, more: Attributes)
    requires Extends(fewer, more) && Conjunction(conditions, fewer) == True
    requires forall i :: 0 <= i < |conditions| ==> conditions[i].operator != NotExists
    ensures Conjunction(conditions, more) == True
  {
    var f, m := Truths(conditions, fewer), Truths(conditions, more);
    AndAllByMembership(f);
    AndAllByMembership(m);
    forall i | 0 <= i < |conditions| ensures m[i] == True {
      TruthSurvivesIff(conditions[i]);
      assert f[i] in f;
    }
  }

  lemma FalseConjunctionStays(conditions: seq<Condition>, fewer: Attributes, more: Attributes)
    requires Extends(fewer, more) && Conjunction(conditions, fewer) == False
    requires forall i :: 0 <= i < |conditions| ==> conditions[i].operator != Exists
    ensures Conjunction(conditions, more) == False
  {
    var f, m := Truths(conditions, fewer), Truths(conditions, more);
    AndAllByMembership(f);
    AndAllByMembership(m);
    var i :| 0 <= i < |f| && f[i] == False;
    FalsehoodSurvivesIff(conditions[i]);
    assert m[i] == False;
  }

  lemma FactsExtend(fewer: Attributes, more: Attributes, user: string, tenant: string)
    requires Extends(fewer, more)
    ensures Extends(Facts(fewer, user, tenant), Facts(more, user, tenant))
  {
  }

  /** A missing fact can only withhold access. */
  lemma AllowSurvivesMoreFacts(roles: set<string>, stored: map<string, seq<PolicyRule>>, base: bool, q: Request,
                               fewer: Attributes, more: Attributes, user: string, tenant: string)
    requires Extends(fewer, more)
    requires forall n, i :: n in roles && n in stored && 0 <= i < |stored[n]| && Applies(stored[n][i], q) ==>
      Withholds(stored[n][i])
    requires Permits(roles, stored, base, q, Facts(fewer, user, tenant))
    ensures Permits(roles, stored, base, q, Facts(more, user, tenant))
  {
    var f, m := Facts(fewer, user, tenant), Facts(more, user, tenant);
    FactsExtend(fewer, more, user, tenant);
    forall n | n in roles ensures !AnyVetoes(stored[n], q, m) {
      forall i | 0 <= i < |stored[n]| ensures !Vetoes(stored[n][i], q, m) {
        assert !Vetoes(stored[n][i], q, f);
        if stored[n][i].effect == Deny && Applies(stored[n][i], q) {
          FalseConjunctionStays(stored[n][i].conditions, f, m);
        }
      }
    }
    if !base {
      var n :| n in roles && AnyGrants(stored[n], q, f);
      var i :| 0 <= i < |stored[n]| && Grants(stored[n][i], q, f);
      TrueConjunctionStays(stored[n][i].conditions, f, m);
      assert Grants(stored[n][i], q, m);
      assert AnyGrants(stored[n], q, m);
    }
  }

  /** The two operators are the only trouble: an absence allow and a presence deny each revoke access for a new fact. */
  lemma NewFactRevokes(deny: bool)
    ensures exists rule: PolicyRule, q: Request, fewer: Attributes, more: Attributes ::
      && ValidRule(rule) && rule.effect == (if deny then Deny else Allow) && Extends(fewer, more)
      && Revoked(rule, deny, q, fewer, more)
  {
    var c := Condition("k", if deny then Exists else NotExists, None, "");
    var rule := PolicyRule(if deny then Deny else Allow, "x", "y", [c]);
    var q := Request(false, "x", "y");
    var fewer: Attributes, more: Attributes := map[], map["k" := NULL];
    PresenceTestIsValid(rule, c);
    PresenceTestTurns(c, fewer, more);
    OneConditionRevokes(rule, c, deny, q, fewer, more);
  }

  lemma PresenceTestIsValid(rule: PolicyRule, c: Condition)
    requires (c.operator == Exists || c.operator == NotExists) && c == Condition("k", c.operator, None, "")
    requires (rule.effect == Allow || rule.effect == Deny) && rule == PolicyRule(rule.effect, "x", "y", [c])
    ensures ValidRule(rule)
  {
    assert !IsSpace(c.attribute[0]) && !IsSpace(rule.resource[0]) && !IsSpace(rule.action[0]);
  }

  lemma PresenceTestTurns(c: Condition, fewer: Attributes, more: Attributes)
    requires c.attribute == "k" && fewer == map[] && more == map["k" := NULL]
    ensures var before, after := ConditionMatches(c, Facts(fewer, "u", "t")), ConditionMatches(c, Facts(more, "u", "t"));
      && (c.operator == Exists ==> TruthOf(before) == False && TruthOf(after) == True)
      && (c.operator == NotExists ==> TruthOf(before) == True && TruthOf(after) == False)
  {
  }

  /** A role with this rule alone permits the request, and with more facts no longer does. */
  ghost predicate Revoked(rule: PolicyRule, base: bool, q: Request, fewer: Attributes, more: Attributes) {
    && Permits({"r"}, map["r" := [rule]], base, q, Facts(fewer, "u", "t"))
    && !Permits({"r"}, map["r" := [rule]], base, q, Facts(more, "u", "t"))
  }

  lemma OneConditionRevokes(rule: PolicyRule, c: Condition, deny: bool, q: Request, fewer: Attributes, more: Attributes)
    requires ValidRule(rule) && Applies(rule, q) && rule.conditions == [c] && rule.effect == if deny then Deny else Allow
    requires TruthOf(ConditionMatches(c, Facts(fewer, "u", "t"))) == if deny then False else True
    requires TruthOf(ConditionMatches(c, Facts(more, "u", "t"))) == if deny then True else False
    ensures Revoked(rule, deny, q, fewer, more)
  {
    OneCondition(c, Facts(fewer, "u", "t"));
    OneCondition(c, Facts(more, "u", "t"));
    OneRulePermits(rule, deny, q, Facts(fewer, "u", "t"));
    OneRulePermits(rule, deny, q, Facts(more, "u", "t"));
  }

  lemma OneCondition(c: Condition, attrs: Attributes)
    ensures Conjunction([c], attrs) == TruthOf(ConditionMatches(c, attrs))
  {
    AndAllByMembership(Truths([c], attrs));
    assert Truths([c], attrs) == [TruthOf(ConditionMatches(c, attrs))];
  }

  lemma OneRulePermits(rule: PolicyRule, base: bool, q: Request, facts: Attributes)
    requires ValidRule(rule)
    ensures Permits({"r"}, map["r" := [rule]], base, q, facts) <==>
      !Vetoes(rule, q, facts) && (base || Grants(rule, q, facts))
  {
    var rules := [rule];
    assert Vetoes(rules[0], q, facts) == Vetoes(rule, q, facts) && Grants(rules[0], q, facts) == Grants(rule, q, facts);
    assert AnyVetoes(rules, q, facts) <==> Vetoes(rule, q, facts);
    assert AnyGrants(rules, q, facts) <==> Grants(rule, q, facts);
  }
}
