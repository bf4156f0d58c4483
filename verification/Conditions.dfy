/**
 What a decision comes to, operator by operator and name by name: told by the numbers, texts and
 permissions themselves.
 */
module Conditions {
  import opened Basics
  import opened Rules
  import opened Policy
  import opened Decision

  // ---- Names ----

  /** The pattern stands for the name: literally, or as the wildcard where wildcards are enabled. */
  predicate StandsFor(pattern: string, name: string, wildcards: bool) {
    pattern == name || (wildcards && pattern == "*")
  }

  predicate IsAbout(rule: PolicyRule, q: Request) {
    StandsFor(rule.resource, q.resource, q.wildcards) && StandsFor(rule.action, q.action, q.wildcards)
  }

  /** Some effective permission of the user stands for the request. */
  ghost predicate HoldsPermission(p: Policy, user: string, q: Request) {
    exists held :: held in Effective(p, user) && Covers(held, q)
  }

  predicate Covers(held: Permission, q: Request) {
    StandsFor(held.resource, q.resource, q.wildcards) && StandsFor(held.action, q.action, q.wildcards)
  }

  lemma GrantedIffHeld(p: Policy, user: string, q: Request)
    ensures Granted(p, user, q) <==> HoldsPermission(p, user, q)
  {
    var perms := Effective(p, user);
    if held :| held in perms && Covers(held, q) {
      assert held == Permission(held.resource, held.action);
    }
    if Granted(p, user, q) {
      var resource := if Permission(q.resource, q.action) in perms || Permission(q.resource, "*") in perms then q.resource else "*";
      var action := if Permission(resource, q.action) in perms then q.action else "*";
      assert Permission(resource, action) in perms && Covers(Permission(resource, action), q);
    }
  }

  /** Without rules, a request is allowed exactly if a permission the user holds stands for it. */
  lemma AllowedByPermission(p: Policy, user: string, q: Request, facts: Attributes)
    ensures Allowed(p, user, false, q, facts) <==> HoldsPermission(p, user, q)
  {
    GrantedIffHeld(p, user, q);
  }

  // ---- Deny overrides ----

  /** The condition is certainly satisfied, or certainly not. */
  predicate Holds(c: Condition, facts: Attributes) {
    ConditionMatches(c, facts) == (true, true)
  }

  predicate Fails(c: Condition, facts: Attributes) {
    ConditionMatches(c, facts) == (false, true)
  }

  lemma ConjunctionByConditions(cs: seq<Condition>, facts: Attributes)
    ensures Conjunction(cs, facts) == False <==> exists i :: 0 <= i < |cs| && Fails(cs[i], facts)
    ensures Conjunction(cs, facts) == True <==> forall i :: 0 <= i < |cs| ==> Holds(cs[i], facts)
  {
    var ts := Truths(cs, facts);
    AndAllByMembership(ts);
    assert forall i :: 0 <= i < |cs| ==> ts[i] == TruthOf(ConditionMatches(cs[i], facts));
    if forall i :: 0 <= i < |cs| ==> Holds(cs[i], facts) {
      assert False !in ts && Unknown !in ts;
    }
    if i :| 0 <= i < |cs| && Fails(cs[i], facts) {
      assert ts[i] == False;
    }
    if i :| 0 <= i < |cs| && !Holds(cs[i], facts) {
      assert ts[i] != True;
    }
  }

  /** A deny about the request that no condition rules out. */
  predicate Forbids(rule: PolicyRule, q: Request, facts: Attributes) {
    rule.effect == Deny && IsAbout(rule, q) && forall i :: 0 <= i < |rule.conditions| ==> !Fails(rule.conditions[i], facts)
  }

  /** An allow about the request whose conditions all hold. */
  predicate Permitting(rule: PolicyRule, q: Request, facts: Attributes) {
    rule.effect == Allow && IsAbout(rule, q) && forall i :: 0 <= i < |rule.conditions| ==> Holds(rule.conditions[i], facts)
  }

  /** The rule is in the stored list of a role the user holds. */
  ghost predicate Governs(p: Policy, user: string, rule: PolicyRule) {
    exists n :: n in HeldRoles(p, user) && n in p.rules && rule in p.rules[n]
  }

  /**
   With rules, on a valid policy, a request is allowed exactly if no rule of a held role forbids it
   and either a held permission stands for it or a rule of a held role permits it.
   */
  lemma AllowedByRules(p: Policy, user: string, q: Request, facts: Attributes)
    requires Valid(p)
    ensures Allowed(p, user, true, q, facts) <==>
      && (forall rule :: Governs(p, user, rule) ==> !Forbids(rule, q, facts))
      && (HoldsPermission(p, user, q) || exists rule :: Governs(p, user, rule) && Permitting(rule, q, facts))
  {
    GrantedIffHeld(p, user, q);
    ValidIsReadable(p, user);
    PermitsByRules(p, user, HoldsPermission(p, user, q), q, facts);
  }

  lemma PermitsByRules(p: Policy, user: string, base: bool, q: Request, facts: Attributes)
    requires forall n :: n in HeldRoles(p, user) ==> Readable(RulesOf(p), n)
    ensures Permits(HeldRoles(p, user), RulesOf(p), base, q, facts) <==>
      && (forall rule :: Governs(p, user, rule) ==> !Forbids(rule, q, facts))
      && (base || exists rule :: Governs(p, user, rule) && Permitting(rule, q, facts))
  {
    RulesByConditions(q, facts);
    NoneForbids(p, user, q, facts);
    SomePermits(p, user, q, facts);
  }

  lemma RulesByConditions(q: Request, facts: Attributes)
    ensures forall rule: PolicyRule :: Vetoes(rule, q, facts) <==> Forbids(rule, q, facts)
    ensures forall rule: PolicyRule :: Rules.Grants(rule, q, facts) <==> Permitting(rule, q, facts)
  {
    forall rule: PolicyRule
      ensures Vetoes(rule, q, facts) <==> Forbids(rule, q, facts)
      ensures Rules.Grants(rule, q, facts) <==> Permitting(rule, q, facts)
    {
      ConjunctionByConditions(rule.conditions, facts);
    }
  }

  lemma NoneForbids(p: Policy, user: string, q: Request, facts: Attributes)
    requires forall rule: PolicyRule :: Vetoes(rule, q, facts) <==> Forbids(rule, q, facts)
    ensures (forall n :: n in HeldRoles(p, user) ==> !AnyVetoes(RulesOf(p)[n], q, facts))
       <==> (forall rule :: Governs(p, user, rule) ==> !Forbids(rule, q, facts))
  {
    if forall n :: n in HeldRoles(p, user) ==> !AnyVetoes(RulesOf(p)[n], q, facts) {
      forall rule | Governs(p, user, rule) ensures !Forbids(rule, q, facts) {
        var n :| n in HeldRoles(p, user) && n in p.rules && rule in p.rules[n];
        var i :| 0 <= i < |p.rules[n]| && p.rules[n][i] == rule;
        assert !AnyVetoes(RulesOf(p)[n], q, facts);
        assert !Vetoes(RulesOf(p)[n][i], q, facts);
      }
    }
    if n :| n in HeldRoles(p, user) && AnyVetoes(RulesOf(p)[n], q, facts) {
      var i :| 0 <= i < |RulesOf(p)[n]| && Vetoes(RulesOf(p)[n][i], q, facts);
      assert Governs(p, user, p.rules[n][i]) && Forbids(p.rules[n][i], q, facts);
    }
  }

  lemma SomePermits(p: Policy, user: string, q: Request, facts: Attributes)
    requires forall rule: PolicyRule :: Rules.Grants(rule, q, facts) <==> Permitting(rule, q, facts)
    ensures (exists n :: n in HeldRoles(p, user) && AnyGrants(RulesOf(p)[n], q, facts))
       <==> (exists rule :: Governs(p, user, rule) && Permitting(rule, q, facts))
  {
    if rule :| Governs(p, user, rule) && Permitting(rule, q, facts) {
      var n :| n in HeldRoles(p, user) && n in p.rules && rule in p.rules[n];
      var i :| 0 <= i < |p.rules[n]| && p.rules[n][i] == rule;
      assert Rules.Grants(RulesOf(p)[n][i], q, facts);
      assert AnyGrants(RulesOf(p)[n], q, facts);
    }
    if n :| n in HeldRoles(p, user) && AnyGrants(RulesOf(p)[n], q, facts) {
      var i :| 0 <= i < |RulesOf(p)[n]| && Rules.Grants(RulesOf(p)[n][i], q, facts);
      assert Governs(p, user, p.rules[n][i]) && Permitting(p.rules[n][i], q, facts);
    }
  }

  // ---- One condition decides ----

  /** The rule is the only one among the user's roles, and it is about the request. */
  ghost predicate Alone(p: Policy, user: string, q: Request, rule: PolicyRule) {
    Governs(p, user, rule) && IsAbout(rule, q) && forall other :: Governs(p, user, other) ==> other == rule
  }

  /** A held permission stands for the request, and a deny with one condition is the only rule. */
  ghost predicate DeniedIf(p: Policy, user: string, q: Request, c: Condition) {
    && Valid(p) && HoldsPermission(p, user, q)
    && exists rule :: Alone(p, user, q, rule) && rule.effect == Deny && rule.conditions == [c]
  }

  /** No held permission stands for the request, and an allow with one condition is the only rule. */
  ghost predicate AllowedIf(p: Policy, user: string, q: Request, c: Condition) {
    && Valid(p) && !HoldsPermission(p, user, q)
    && exists rule :: Alone(p, user, q, rule) && rule.effect == Allow && rule.conditions == [c]
  }

  lemma OneConditionDecides(p: Policy, user: string, q: Request, c: Condition, facts: Attributes)
    ensures DeniedIf(p, user, q, c) ==> (Allowed(p, user, true, q, facts) <==> Fails(c, facts))
    ensures AllowedIf(p, user, q, c) ==> (Allowed(p, user, true, q, facts) <==> Holds(c, facts))
  {
    if Valid(p) {
      AllowedByRules(p, user, q, facts);
      if rule :| Alone(p, user, q, rule) && rule.conditions == [c] {
        LoneRule(p, user, q, rule, c, facts);
      }
    }
  }

  lemma LoneRule(p: Policy, user: string, q: Request, rule: PolicyRule, c: Condition, facts: Attributes)
    requires Alone(p, user, q, rule) && rule.conditions == [c]
    ensures (forall other :: Governs(p, user, other) ==> !Forbids(other, q, facts)) <==> rule.effect != Deny || Fails(c, facts)
    ensures (exists other :: Governs(p, user, other) && Permitting(other, q, facts)) <==> rule.effect == Allow && Holds(c, facts)
  {
    assert Forbids(rule, q, facts) <==> rule.effect == Deny && !Fails(rule.conditions[0], facts);
    assert Permitting(rule, q, facts) <==> rule.effect == Allow && Holds(rule.conditions[0], facts);
  }

  /** What the condition compares the attribute with: its own value, or another attribute's. */
  predicate Expects(c: Condition, facts: Attributes, v: Value) {
    if c.otherAttribute == "" then c.value == Some(v) else c.otherAttribute in facts && facts[c.otherAttribute] == v
  }

  /** The attribute is the number `x` and is compared with the number `y`. */
  ghost predicate ComparesNumbers(c: Condition, facts: Attributes, x: real, y: real) {
    && c.attribute in facts && facts[c.attribute].Number? && facts[c.attribute].amount == x
    && exists text :: Expects(c, facts, Number(text, y))
  }

  /** What a comparison of numbers comes to. */
  lemma NumbersTruth(c: Condition, facts: Attributes, x: real, y: real)
    requires ComparesNumbers(c, facts, x, y)
    ensures c.operator == Gt ==> (Holds(c, facts) <==> x > y) && (Fails(c, facts) <==> x <= y)
    ensures c.operator == Ge ==> (Holds(c, facts) <==> x >= y) && (Fails(c, facts) <==> x < y)
    ensures c.operator == Lt ==> (Holds(c, facts) <==> x < y) && (Fails(c, facts) <==> x >= y)
    ensures c.operator == Le ==> (Holds(c, facts) <==> x <= y) && (Fails(c, facts) <==> x > y)
    ensures c.operator == Eq ==> (Holds(c, facts) <==> x == y) && (Fails(c, facts) <==> x != y)
    ensures c.operator == Ne ==> (Holds(c, facts) <==> x != y) && (Fails(c, facts) <==> x == y)
  {
    var text :| Expects(c, facts, Number(text, y));
  }

  /** A deny on a comparison of numbers lets pass exactly what the comparison excludes. */
  lemma DenyOnNumbers(p: Policy, user: string, q: Request, c: Condition, facts: Attributes, x: real, y: real)
    requires DeniedIf(p, user, q, c) && ComparesNumbers(c, facts, x, y)
    ensures c.operator == Gt ==> (Allowed(p, user, true, q, facts) <==> x <= y)
    ensures c.operator == Ge ==> (Allowed(p, user, true, q, facts) <==> x < y)
    ensures c.operator == Lt ==> (Allowed(p, user, true, q, facts) <==> x >= y)
    ensures c.operator == Le ==> (Allowed(p, user, true, q, facts) <==> x > y)
    ensures c.operator == Eq ==> (Allowed(p, user, true, q, facts) <==> x != y)
    ensures c.operator == Ne ==> (Allowed(p, user, true, q, facts) <==> x == y)
  {
    NumbersTruth(c, facts, x, y);
    OneConditionDecides(p, user, q, c, facts);
  }

  /** An allow on a comparison of numbers grants exactly what the comparison includes. */
  lemma AllowOnNumbers(p: Policy, user: string, q: Request, c: Condition, facts: Attributes, x: real, y: real)
    requires AllowedIf(p, user, q, c) && ComparesNumbers(c, facts, x, y)
    ensures c.operator == Gt ==> (Allowed(p, user, true, q, facts) <==> x > y)
    ensures c.operator == Ge ==> (Allowed(p, user, true, q, facts) <==> x >= y)
    ensures c.operator == Lt ==> (Allowed(p, user, true, q, facts) <==> x < y)
    ensures c.operator == Le ==> (Allowed(p, user, true, q, facts) <==> x <= y)
    ensures c.operator == Eq ==> (Allowed(p, user, true, q, facts) <==> x == y)
    ensures c.operator == Ne ==> (Allowed(p, user, true, q, facts) <==> x != y)
  {
    NumbersTruth(c, facts, x, y);
    OneConditionDecides(p, user, q, c, facts);
  }

  /** The attribute and what it is compared with are JSON texts that are no numbers. */
  ghost predicate ComparesTexts(c: Condition, facts: Attributes, a: string, b: string) {
    c.attribute in facts && facts[c.attribute] == Other(a) && Expects(c, facts, Other(b))
  }

  predicate Orders(op: Operator) {
    op.Gt? || op.Ge? || op.Lt? || op.Le?
  }

  lemma TextsTruth(c: Condition, facts: Attributes, a: string, b: string)
    requires ComparesTexts(c, facts, a, b)
    ensures c.operator == Eq ==> (Holds(c, facts) <==> a == b) && (Fails(c, facts) <==> a != b)
    ensures c.operator == Ne ==> (Holds(c, facts) <==> a != b) && (Fails(c, facts) <==> a == b)
    ensures Orders(c.operator) ==> !Holds(c, facts) && !Fails(c, facts)
  {
  }

  lemma NumberAndTextTruth(c: Condition, facts: Attributes, b: string)
    requires c.attribute in facts && facts[c.attribute].Number? && Expects(c, facts, Other(b))
    ensures c.operator == Eq ==> Fails(c, facts)
    ensures c.operator == Ne ==> Holds(c, facts)
  {
  }

  /** Texts can be equal or not, but have no order: an ordering deny holds, an ordering allow does not. */
  lemma ComparisonsOfTexts(p: Policy, user: string, q: Request, c: Condition, facts: Attributes, a: string, b: string)
    requires ComparesTexts(c, facts, a, b)
    ensures DeniedIf(p, user, q, c) ==>
      && (c.operator == Eq ==> (Allowed(p, user, true, q, facts) <==> a != b))
      && (c.operator == Ne ==> (Allowed(p, user, true, q, facts) <==> a == b))
      && (Orders(c.operator) ==> !Allowed(p, user, true, q, facts))
    ensures AllowedIf(p, user, q, c) ==>
      && (c.operator == Eq ==> (Allowed(p, user, true, q, facts) <==> a == b))
      && (c.operator == Ne ==> (Allowed(p, user, true, q, facts) <==> a != b))
      && (Orders(c.operator) ==> !Allowed(p, user, true, q, facts))
  {
    TextsTruth(c, facts, a, b);
    OneConditionDecides(p, user, q, c, facts);
  }

  /** A number never equals a text. */
  lemma NumberIsNoText(p: Policy, user: string, q: Request, c: Condition, facts: Attributes, b: string)
    requires c.attribute in facts && facts[c.attribute].Number? && Expects(c, facts, Other(b))
    ensures DeniedIf(p, user, q, c) ==>
      (c.operator == Eq ==> Allowed(p, user, true, q, facts)) && (c.operator == Ne ==> !Allowed(p, user, true, q, facts))
    ensures AllowedIf(p, user, q, c) ==>
      (c.operator == Eq ==> !Allowed(p, user, true, q, facts)) && (c.operator == Ne ==> Allowed(p, user, true, q, facts))
  {
    NumberAndTextTruth(c, facts, b);
    OneConditionDecides(p, user, q, c, facts);
  }

  // ---- Relations between operators ----

  /** `ne` holds exactly where `eq` certainly does not, and neither is known without the other. */
  lemma NeNegatesEq(c: Condition, facts: Attributes)
    requires c.operator == Ne
    ensures Holds(c, facts) <==> Fails(c.(operator := Eq), facts)
    ensures Fails(c, facts) <==> Holds(c.(operator := Eq), facts)
  {
  }

  lemma NotInNegatesIn(c: Condition, facts: Attributes)
    requires c.operator == NotIn
    ensures Holds(c, facts) <==> Fails(c.(operator := In), facts)
    ensures Fails(c, facts) <==> Holds(c.(operator := In), facts)
  {
  }

  /** `in` holds exactly if `eq` does with some item of the list, and is known whenever the two values are. */
  lemma InIsEqWithSome(c: Condition, facts: Attributes, text: string, items: seq<Value>)
    requires c.operator == In && c.attribute in facts && Expects(c, facts, List(text, items))
    requires Marshals(facts[c.attribute]) && forall i :: 0 <= i < |items| ==> Marshals(items[i])
    ensures Holds(c, facts) <==> exists i :: 0 <= i < |items| && Holds(EqualTo(c, items[i]), facts)
    ensures Fails(c, facts) <==> !Holds(c, facts)
  {
    assert Marshals(List(text, items));
    forall i | 0 <= i < |items| ensures Holds(EqualTo(c, items[i]), facts) <==> EqualAttribute(facts[c.attribute], items[i]) {
    }
  }

  function EqualTo(c: Condition, v: Value): Condition {
    Condition(c.attribute, Eq, Some(v), "")
  }

  /** Anything but a list to look in is not known. */
  lemma InNeedsAList(c: Condition, facts: Attributes, v: Value)
    requires (c.operator == In || c.operator == NotIn) && c.attribute in facts && Expects(c, facts, v) && !v.List?
    ensures !Holds(c, facts) && !Fails(c, facts)
  {
  }

  // ---- Absence and presence ----

  /** Only the presence operators can tell anything of an attribute that is not there. */
  lemma AbsentAttribute(p: Policy, user: string, q: Request, c: Condition, facts: Attributes)
    requires c.attribute !in facts
    ensures DeniedIf(p, user, q, c) ==> (Allowed(p, user, true, q, facts) <==> c.operator == Exists)
    ensures AllowedIf(p, user, q, c) ==> (Allowed(p, user, true, q, facts) <==> c.operator == NotExists)
  {
    OneConditionDecides(p, user, q, c, facts);
  }

  /** An attribute that is there, with a value that has an encoding. */
  lemma PresentAttribute(p: Policy, user: string, q: Request, c: Condition, facts: Attributes)
    requires c.attribute in facts && Marshals(facts[c.attribute])
    ensures DeniedIf(p, user, q, c) ==>
      (c.operator == Exists ==> !Allowed(p, user, true, q, facts)) && (c.operator == NotExists ==> Allowed(p, user, true, q, facts))
    ensures AllowedIf(p, user, q, c) ==>
      (c.operator == Exists ==> Allowed(p, user, true, q, facts)) && (c.operator == NotExists ==> !Allowed(p, user, true, q, facts))
  {
    OneConditionDecides(p, user, q, c, facts);
  }

  lemma UnusableIsUnknown(c: Condition, facts: Attributes)
    requires c.attribute in facts
    requires facts[c.attribute].Invalid? || (!c.operator.Exists? && !c.operator.NotExists? && c.otherAttribute != ""
      && (c.otherAttribute !in facts || facts[c.otherAttribute].Invalid?))
    ensures !Holds(c, facts) && !Fails(c, facts)
  {
  }

  /** A value without an encoding, or nothing to compare with, never lets anything pass. */
  lemma UnusableValue(p: Policy, user: string, q: Request, c: Condition, facts: Attributes)
    requires c.attribute in facts
    requires facts[c.attribute].Invalid? || (!c.operator.Exists? && !c.operator.NotExists? && c.otherAttribute != ""
      && (c.otherAttribute !in facts || facts[c.otherAttribute].Invalid?))
    ensures DeniedIf(p, user, q, c) || AllowedIf(p, user, q, c) ==> !Allowed(p, user, true, q, facts)
  {
    UnusableIsUnknown(c, facts);
    OneConditionDecides(p, user, q, c, facts);
  }

  /** A list has no encoding if one of its items has none. */
  lemma ListWithUnusableItem(c: Condition, facts: Attributes, text: string, items: seq<Value>, i: nat)
    requires i < |items| && items[i].Invalid?
    requires c.attribute in facts && (facts[c.attribute] == List(text, items)
      || (!c.operator.Exists? && !c.operator.NotExists? && Expects(c, facts, List(text, items))))
    ensures !Holds(c, facts) && !Fails(c, facts)
  {
    assert !Marshals(List(text, items));
  }

  // ---- The facts of a request ----

  /** The text a string is encoded as. */
  function Quoted(s: string): Value {
    Other("\"" + s + "\"")
  }

  lemma QuotedApart(a: string, b: string)
    ensures ("\"" + a + "\"" == "\"" + b + "\"") <==> a == b
  {
    assert ("\"" + a + "\"")[1..1 + |a|] == a && ("\"" + b + "\"")[1..1 + |b|] == b;
  }

  /** `subject.id` carries the user and `tenant.id` the tenant, whatever the caller supplies for them. */
  lemma FactsNameSubjectAndTenant(p: Policy, key: string, q: Request, c: Condition, attrs: Attributes,
                                  user: string, tenant: string, other: string)
    requires DeniedIf(p, key, q, c) && c.operator == Eq && c.value == Some(Quoted(other)) && c.otherAttribute == ""
    ensures c.attribute == "subject.id" ==> (Allowed(p, key, true, q, Facts(attrs, user, tenant)) <==> user != other)
    ensures c.attribute == "tenant.id" ==> (Allowed(p, key, true, q, Facts(attrs, user, tenant)) <==> tenant != other)
  {
    var facts := Facts(attrs, user, tenant);
    QuotedApart(user, other);
    QuotedApart(tenant, other);
    if c.attribute == "subject.id" {
      ComparisonsOfTexts(p, key, q, c, facts, "\"" + user + "\"", "\"" + other + "\"");
    }
    if c.attribute == "tenant.id" {
      ComparisonsOfTexts(p, key, q, c, facts, "\"" + tenant + "\"", "\"" + other + "\"");
    }
  }

  /** Every other fact is what the caller supplied. */
  lemma OtherFactsAsSupplied(attrs: Attributes, user: string, tenant: string, k: string)
    requires k != "subject.id" && k != "tenant.id"
    ensures k in Facts(attrs, user, tenant) <==> k in attrs
    ensures k in attrs ==> Facts(attrs, user, tenant)[k] == attrs[k]
  {
  }
}
