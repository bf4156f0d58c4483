/**
 The decision for one user: the base grant from the effective permissions, and the rules of
 every role the user holds.
 */
module Decision {
  import opened ParentGraph
  import opened Rules
  import opened Policy
  import opened RoleClosure

  /** The rule list read for each role; a role without stored rules has none. */
  function RulesOf(p: Policy): map<string, seq<PolicyRule>> {
    map n | n in p.roles :: if n in p.rules then p.rules[n] else []
  }

  /** The user's effective permissions grant the request, wildcards included if they are enabled. */
  ghost predicate Granted(p: Policy, user: string, q: Request) {
    MatchPermission(Effective(p, user), q.wildcards, q.resource, q.action)
  }

  /** What the policy as a whole says about a request, with no order of roles or rules in sight. */
  ghost predicate Allowed(p: Policy, user: string, rulesEnabled: bool, q: Request, facts: Attributes) {
    if rulesEnabled then Permits(HeldRoles(p, user), RulesOf(p), Granted(p, user, q), q, facts)
    else Granted(p, user, q)
  }

  lemma ValidIsReadable(p: Policy, user: string)
    requires Valid(p)
    ensures forall n :: n in HeldRoles(p, user) ==> Readable(RulesOf(p), n)
  {
  }

  /** The roles a user holds, collected from the assigned ones, with each one's rules evaluated. */
  method EvaluateHeld(c: Catalog, direct: seq<string>, rules: map<string, seq<PolicyRule>>, base: bool, q: Request,
                      facts: Attributes, ghost p: Policy, ghost user: string)
    returns (d: Decision)
    requires p.roles == Abstract(c) && p.rules == rules && forall n :: n in direct <==> (user, n) in p.assignments
    ensures d == Decided(true) <==> Permits(HeldRoles(p, user), RulesOf(p), base, q, facts)
    ensures Valid(p) ==> d == Decided(Permits(HeldRoles(p, user), RulesOf(p), base, q, facts))
  {
    var held := CollectAllRoleNames(c, direct);
    CollectedAreHeld(c, direct, held, p, user);
    var stored := map n | n in c :: if n in rules then rules[n] else [];
    assert stored == RulesOf(p);
    d := EvaluateRules(held, stored, base, q, facts);
    if Valid(p) { ValidIsReadable(p, user); }
  }

  lemma CollectedAreHeld(c: Catalog, direct: seq<string>, held: set<string>, p: Policy, user: string)
    requires p.roles == Abstract(c) && forall n :: n in direct <==> (user, n) in p.assignments
    requires forall n :: n in held <==> n in c && exists a :: a in direct && Reaches(GraphOf(c), a, n)
    ensures held == HeldRoles(p, user)
  {
    assert Parents(p) == GraphOf(c);
    forall n ensures n in held <==> n in HeldRoles(p, user) {
      if n in HeldRoles(p, user) {
        var a :| (user, a) in p.assignments && Reaches(Parents(p), a, n);
        assert a in direct;
      }
    }
  }

  /**
   The whole decision without a cache. On a valid policy it never fails and is what the policy
   says; on any store it allows only what the policy allows, and fails if a cycle is met.
   */
  method Decide(c: Catalog, direct: seq<string>, rules: map<string, seq<PolicyRule>>, rulesEnabled: bool, q: Request,
                facts: Attributes, ghost p: Policy, ghost user: string)
    returns (d: Decision)
    requires p.roles == Abstract(c) && p.rules == rules && forall n :: n in direct <==> (user, n) in p.assignments
    ensures d == Decided(true) ==> Allowed(p, user, rulesEnabled, q, facts)
    ensures (exists n :: n in direct && CycleAbove(Parents(p), n)) ==> d == Failed
    ensures Valid(p) ==> d == Decided(Allowed(p, user, rulesEnabled, q, facts))
  {
    var failed, perms := ComputeEffective(c, direct, p, user);
    if failed {
      return Failed;
    }
    var base := MatchPermission(perms, q.wildcards, q.resource, q.action);
    if !rulesEnabled {
      return Decided(base);
    }
    d := EvaluateHeld(c, direct, rules, base, q, facts, p, user);
  }

  /** A missing fact can only withhold access: an allowed request stays allowed when facts are added. */
  lemma AllowedSurvivesMoreFacts(p: Policy, user: string, rulesEnabled: bool, q: Request,
                                 fewer: Attributes, more: Attributes, subject: string, tenant: string)
    requires Extends(fewer, more)
    requires forall n, i :: n in HeldRoles(p, user) && n in p.rules && 0 <= i < |p.rules[n]| && Applies(p.rules[n][i], q) ==> Withholds(p.rules[n][i])
    requires Allowed(p, user, rulesEnabled, q, Facts(fewer, subject, tenant))
    ensures Allowed(p, user, rulesEnabled, q, Facts(more, subject, tenant))
  {
    if rulesEnabled {
      AllowSurvivesMoreFacts(HeldRoles(p, user), RulesOf(p), Granted(p, user, q), q, fewer, more, subject, tenant);
    }
  }

  /** Two policies that give the user the same roles with the same permissions and rules decide alike. */
  lemma SameDecision(p: Policy, r: Policy, user: string, rulesEnabled: bool, q: Request, facts: Attributes)
    requires SameFor(p, r, user)
    requires forall n :: n in HeldRoles(p, user) ==> RulesOf(p)[n] == RulesOf(r)[n]
    ensures Allowed(p, user, rulesEnabled, q, facts) <==> Allowed(r, user, rulesEnabled, q, facts)
  {
  }
}
