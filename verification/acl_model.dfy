/**
 * The security snapshot of a pipe: an owner, a group and an ordered list of
 * allow/deny rules, with the hand-written equality of the C# classes.
 * A C# reference that may be null is an `Option`.
 */
module AclModels {
  import opened Wrappers
  import opened Exceptions

  /** One access rule. `rights` is the raw value of the PipeAccessRights flags. */
  datatype AclRule = AclRule(principal: string, allows: bool, rights: int)

  /** Owner, group and rules; the rules keep the order they were read in. */
  datatype Acl = Acl(owner: string, group: string, rules: seq<AclRule>)

  /** What `new AclModel(null, null, null)` builds. */
  const EmptyAcl: Acl := Acl("", "", [])

  /** The AclRuleModel constructor: a null principal throws. */
  function NewRule(principal: Option<string>, allows: bool, rights: int): (r: Result<AclRule, Exception>)
    ensures r.Failure? <==> principal.None?
    ensures r.Failure? ==> r.error == ArgumentNull
    ensures r.Success? ==> r.value.principal == principal.value
    ensures r.Success? ==> r.value.allows == allows && r.value.rights == rights
  {
    match principal
    case None => Failure(ArgumentNull)
    case Some(p) => Success(AclRule(p, allows, rights))
  }

  /** The AclModel constructor: every null argument becomes its empty value. */
  function NewAcl(owner: Option<string>, group: Option<string>, rules: Option<seq<AclRule>>): (a: Acl)
    ensures owner.None? ==> a.owner == ""
    ensures group.None? ==> a.group == ""
    ensures rules.None? ==> a.rules == []
    ensures owner.Some? ==> a.owner == owner.value
    ensures group.Some? ==> a.group == group.value
    ensures rules.Some? ==> a.rules == rules.value
    ensures owner.None? && group.None? && rules.None? ==> a == EmptyAcl
  {
    Acl(owner.GetOr(""), group.GetOr(""), rules.GetOr([]))
  }

  /** `AclRuleModel.Equals(AclRuleModel other)`: false against null, else field by field. */
  function RuleEquals(self: AclRule, other: Option<AclRule>): (r: bool)
    ensures r <==> other == Some(self)
  {
    other.Some?
    && self.principal == other.value.principal
    && self.allows == other.value.allows
    && self.rights == other.value.rights
  }

  /** `AclRuleModel ==`, through `EqualityComparer.Default`: null equals only null. */
  function RuleOpEq(left: Option<AclRule>, right: Option<AclRule>): (r: bool)
    ensures r <==> left == right
  {
    match left
    case None => right.None?
    case Some(l) => RuleEquals(l, right)
  }

  /** `AclRuleModel !=`. */
  function RuleOpNe(left: Option<AclRule>, right: Option<AclRule>): (r: bool)
    ensures r <==> !RuleOpEq(left, right)
    ensures r <==> left != right
  {
    !RuleOpEq(left, right)
  }

  /** `Enumerable.SequenceEqual` over rule lists with the rule equality above. */
  function RulesSequenceEqual(a: seq<AclRule>, b: seq<AclRule>): (r: bool)
    ensures r <==> a == b
  {
    if |a| == 0 then |b| == 0
    else |b| > 0 && RuleEquals(a[0], Some(b[0])) && RulesSequenceEqual(a[1..], b[1..])
  }

  /** `AclModel.Equals(AclModel other)`: owner, group and the rules in the same order. */
  function AclEquals(self: Acl, other: Option<Acl>): (r: bool)
    ensures r <==> other == Some(self)
  {
    other.Some?
    && self.owner == other.value.owner
    && self.group == other.value.group
    && RulesSequenceEqual(self.rules, other.value.rules)
  }

  /** `AclModel ==`: null equals only null. */
  function AclOpEq(left: Option<Acl>, right: Option<Acl>): (r: bool)
    ensures r <==> left == right
  {
    match left
    case None => right.None?
    case Some(l) => AclEquals(l, right)
  }

  /** `AclModel !=`. */
  function AclOpNe(left: Option<Acl>, right: Option<Acl>): (r: bool)
    ensures r <==> !AclOpEq(left, right)
  {
    !AclOpEq(left, right)
  }

  /** Rule order matters: the same two distinct rules in the other order give an unequal ACL. */
  lemma ReorderedRulesUnequal(owner: string, group: string, x: AclRule, y: AclRule)
    requires x != y
    ensures !AclEquals(Acl(owner, group, [x, y]), Some(Acl(owner, group, [y, x])))
  {
    assert [x, y][0] != [y, x][0];
  }

  /** Both hand-written equalities are equivalence relations on non-null values. */
  lemma EqualitiesAreEquivalences(a: Acl, b: Acl, c: Acl, x: AclRule, y: AclRule, z: AclRule)
    ensures AclEquals(a, Some(a)) && RuleEquals(x, Some(x))
    ensures AclEquals(a, Some(b)) <==> AclEquals(b, Some(a))
    ensures RuleEquals(x, Some(y)) <==> RuleEquals(y, Some(x))
    ensures AclEquals(a, Some(b)) && AclEquals(b, Some(c)) ==> AclEquals(a, Some(c))
    ensures RuleEquals(x, Some(y)) && RuleEquals(y, Some(z)) ==> RuleEquals(x, Some(z))
  {
  }
}
