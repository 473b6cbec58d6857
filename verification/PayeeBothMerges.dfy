/** Migrations 072 and 076 in a row, table by table, against 076 alone. */
module PayeeBothMerges {
  import opened Wrappers
  import opened PayeeTables
  import opened PayeeRules
  import opened PayeeMerge
  import opened PayeeExactMerge

  // ---------- Payees ----------

  /** The oldest row of a normalised-name group is also the oldest of its exact name, so it
      survives 072, and it is still the oldest of what 072 leaves of the group. */
  lemma MinimumOfMinima(payees: Payees, norm: Normalizer, p: Id)
    requires p in payees
    ensures Keeper(payees, EXACT, p) in PayeesAfter(payees, EXACT)
    ensures Keeper(PayeesAfter(payees, EXACT), norm, Keeper(payees, EXACT, p)) == Keeper(payees, norm, p)
  {
    OnePayeePerName(payees, EXACT);
    KeeperOfGroup(payees, EXACT, p);
    KeeperOfGroup(payees, norm, p);
    var mid := PayeesAfter(payees, EXACT);
    var k, m := Keeper(payees, EXACT, p), Keeper(payees, norm, p);
    assert IsOldest(payees, Group(payees, EXACT, m), m) by {
      assert Group(payees, EXACT, m) <= Group(payees, norm, p);
      assert m in Group(payees, EXACT, m);
    }
    KeeperIsUnique(payees, EXACT, m, m);
    assert Group(mid, norm, k) <= Group(payees, norm, p);
    assert m in Group(mid, norm, k);
    KeeperIsUnique(mid, norm, k, m);
  }

  lemma SameSurvivor(payees: Payees, norm: Normalizer, p: Id)
    requires p in payees
    ensures p in PayeesAfter(PayeesAfter(payees, EXACT), norm) <==> Keeper(payees, norm, p) == p
  {
    OnePayeePerName(payees, EXACT);
    OnePayeePerName(PayeesAfter(payees, EXACT), norm);
    MinimumOfMinima(payees, norm, p);
    if Keeper(payees, norm, p) == p {
      assert p in Group(payees, EXACT, p) && Group(payees, EXACT, p) <= Group(payees, norm, p);
      KeeperIsUnique(payees, EXACT, p, p);
    }
  }

  /** The same payees are left after both migrations as after 076 alone. */
  lemma BothKeepSamePayees(payees: Payees, norm: Normalizer)
    ensures PayeesAfter(PayeesAfter(payees, EXACT), norm) == PayeesAfter(payees, norm)
  {
    forall p | p in payees
      ensures p in PayeesAfter(PayeesAfter(payees, EXACT), norm) <==> p in PayeesAfter(payees, norm)
    {
      SameSurvivor(payees, norm, p);
    }
  }

  // The three tables of duplicates: 072's, the one 076 finds after it, and the one it finds alone.

  ghost function Exactly(payees: Payees): map<Id, Id> {
    Dedupe(payees, EXACT)
  }

  ghost function Second(payees: Payees, norm: Normalizer): map<Id, Id> {
    Dedupe(PayeesAfter(payees, EXACT), norm)
  }

  ghost function Alone(payees: Payees, norm: Normalizer): map<Id, Id> {
    Dedupe(payees, norm)
  }

  lemma MergedOnce(payees: Payees, norm: Normalizer, p: Id)
    ensures p in Alone(payees, norm) <==> p in Exactly(payees) || p in Second(payees, norm)
    ensures !(p in Exactly(payees) && p in Second(payees, norm))
    ensures p in Second(payees, norm) ==> Second(payees, norm)[p] == Alone(payees, norm)[p]
    ensures p in Exactly(payees) ==> Follow(Second(payees, norm), Exactly(payees)[p]) == Alone(payees, norm)[p]
  {
    if p in payees {
      var k := Keeper(payees, EXACT, p);
      OnePayeePerName(payees, EXACT);
      SameSurvivor(payees, norm, p);
      MinimumOfMinima(payees, norm, p);
      OnePayeePerName(PayeesAfter(payees, EXACT), norm);
      FollowIsKeeper(PayeesAfter(payees, EXACT), norm, k);
    }
  }

  /** Every payee 076 alone would merge is merged by exactly one of the two, and ends up at the
      same keeper. */
  lemma MergesSplit(payees: Payees, norm: Normalizer)
    ensures Alone(payees, norm).Keys == Exactly(payees).Keys + Second(payees, norm).Keys
    ensures Exactly(payees).Keys !! Second(payees, norm).Keys
    ensures PartOf(Second(payees, norm), Alone(payees, norm))
    ensures forall p :: p in Exactly(payees) ==>
              p in Alone(payees, norm) && Alone(payees, norm)[p] == Follow(Second(payees, norm), Exactly(payees)[p])
  {
    forall p
      ensures p in Alone(payees, norm) <==> p in Exactly(payees) || p in Second(payees, norm)
      ensures !(p in Exactly(payees) && p in Second(payees, norm))
      ensures p in Second(payees, norm) ==> Second(payees, norm)[p] == Alone(payees, norm)[p]
      ensures p in Exactly(payees) ==> Follow(Second(payees, norm), Exactly(payees)[p]) == Alone(payees, norm)[p]
    {
      MergedOnce(payees, norm, p);
    }
  }

  // ---------- Transactions ----------

  /** Running 072 and then 076 sends every transaction where 076 alone would. */
  lemma BothSendTransactionsAlike(payees: Payees, transactions: Transactions, norm: Normalizer)
    requires TransactionsResolve(payees, transactions)
    ensures TransactionsAfter(PayeesAfter(payees, EXACT), TransactionsAfter(payees, transactions, EXACT), norm)
         == TransactionsAfter(payees, transactions, norm)
  {
    hide TransactionsAfter, PayeesAfter;
    var mid, moved := PayeesAfter(payees, EXACT), TransactionsAfter(payees, transactions, EXACT);
    TransactionsKeepTheirPayee(payees, transactions, EXACT);
    TransactionsKeepTheirPayee(mid, moved, norm);
    TransactionsKeepTheirPayee(payees, transactions, norm);
    forall t | t in transactions
      ensures TransactionsAfter(mid, moved, norm)[t] == TransactionsAfter(payees, transactions, norm)[t]
    {
      if transactions[t].Some? {
        MinimumOfMinima(payees, norm, transactions[t].value);
      }
    }
  }

  // ---------- Rules ----------

  /** The action sets one of `ids`. */
  predicate SetsAny(a: Action, ids: set<Id>) {
    a.op == "set_payee" && a.value.Ref? && a.value.id in ids
  }

  lemma ActionUnderPart(a: Action, part: map<Id, Id>, d: map<Id, Id>)
    requires OneHop(d) && PartOf(part, d)
    ensures RewriteAction(a, part) == RewriteAction(a, d) <==> !SetsAny(a, d.Keys - part.Keys)
    ensures SetsAny(RewriteAction(a, part), d.Keys) <==> SetsAny(a, d.Keys - part.Keys)
  {
  }

  /** Neither 072 nor the later 076 knows the payees 072 merged, so rules keep referring to them:
      after both, a rule tests a deleted payee exactly when it tested one that 072 merged, at any
      depth, or one that 076 merges deeper than one group; and an action sets a deleted payee
      exactly when it set one that 072 merged. */
  lemma RulesMissTheExactMerge(payees: Payees, rules: Rules, norm: Normalizer, r: Id)
    requires r in rules
    ensures var after := RulesAfter(PayeesAfter(payees, EXACT), rules, norm);
            && r in after && |after[r].actions| == |rules[r].actions|
            && (OccursAny(after[r].conditions, Alone(payees, norm).Keys) <==>
                  || OccursAny(rules[r].conditions, Exactly(payees).Keys)
                  || AnyDeep(rules[r].conditions, Second(payees, norm).Keys))
            && (forall i :: 0 <= i < |rules[r].actions| ==>
                  (SetsAny(after[r].actions[i], Alone(payees, norm).Keys) <==>
                   SetsAny(rules[r].actions[i], Exactly(payees).Keys)))
  {
    var nodes, d1, d2 := rules[r].conditions, Exactly(payees), Second(payees, norm);
    var after := ConditionsAfter(nodes, d2);
    MergesSplit(payees, norm);
    DedupeIsOneHop(payees, norm);
    DedupeIsOneHop(PayeesAfter(payees, EXACT), norm);
    TestedAfterwards(nodes, d2);
    forall id | id in d1 ensures Occurs(after, id) <==> Occurs(nodes, id) {
      BystanderStays(nodes, d2, id);
    }
    assert OccursAny(after, d1.Keys) <==> OccursAny(nodes, d1.Keys);
    OccursAnyOfUnion(after, d1.Keys, d2.Keys);
    assert Alone(payees, norm).Keys - d2.Keys == d1.Keys;
    forall i | 0 <= i < |rules[r].actions|
      ensures SetsAny(RewriteAction(rules[r].actions[i], d2), Alone(payees, norm).Keys) <==>
              SetsAny(rules[r].actions[i], d1.Keys)
    {
      ActionUnderPart(rules[r].actions[i], d2, Alone(payees, norm));
    }
  }

  /** A rule that comes out of both migrations as it would out of 076 alone. */
  ghost predicate RuleIndifferent(rule: Rule, exact: set<Id>, second: set<Id>) {
    && (forall i :: 0 <= i < |rule.actions| ==> !SetsAny(rule.actions[i], exact))
    && SameWithout(rule.conditions, exact, second)
  }

  lemma RuleAlikeExactly(payees: Payees, rules: Rules, norm: Normalizer, r: Id)
    requires r in rules
    ensures RulesAfter(PayeesAfter(payees, EXACT), rules, norm)[r] == RulesAfter(payees, rules, norm)[r] <==>
            RuleIndifferent(rules[r], Exactly(payees).Keys, Second(payees, norm).Keys)
  {
    hide ConditionsAfter, SameWithout, Dedupe;
    var rule, d, d2 := rules[r], Alone(payees, norm), Second(payees, norm);
    MergesSplit(payees, norm);
    DedupeIsOneHop(payees, norm);
    assert d.Keys - d2.Keys == Exactly(payees).Keys;
    SameUnderPartExactly(rule.conditions, d2, d);
    var few, all := RewriteActions(rule.actions, d2), RewriteActions(rule.actions, d);
    forall i | 0 <= i < |rule.actions|
      ensures few[i] == all[i] <==> !SetsAny(rule.actions[i], Exactly(payees).Keys)
    {
      ActionUnderPart(rule.actions[i], d2, d);
    }
    if forall i :: 0 <= i < |rule.actions| ==> !SetsAny(rule.actions[i], Exactly(payees).Keys) {
      assert few == all;
    }
  }

  /** The rules come out of both as out of 076 alone exactly when no action sets a payee 072
      merged, no condition within two levels tests one, and none makes the difference for a rule
      with an empty group. */
  lemma BothRewriteRulesAlikeExactly(payees: Payees, rules: Rules, norm: Normalizer)
    ensures RulesAfter(PayeesAfter(payees, EXACT), rules, norm) == RulesAfter(payees, rules, norm) <==>
            forall r :: r in rules ==> RuleIndifferent(rules[r], Exactly(payees).Keys, Second(payees, norm).Keys)
  {
    var two, one := RulesAfter(PayeesAfter(payees, EXACT), rules, norm), RulesAfter(payees, rules, norm);
    forall r | r in rules
      ensures two[r] == one[r] <==> RuleIndifferent(rules[r], Exactly(payees).Keys, Second(payees, norm).Keys)
    {
      RuleAlikeExactly(payees, rules, norm, r);
    }
    if forall r :: r in rules ==> two[r] == one[r] {
      assert two == one;
    }
  }

  /** For rules the application can save, that is: they neither set nor test a payee 072 merged. */
  lemma SavableRuleIndifferent(rule: Rule, exact: set<Id>, second: set<Id>)
    requires Savable(rule.conditions)
    ensures RuleIndifferent(rule, exact, second) <==>
            && !OccursAny(rule.conditions, exact)
            && (forall i :: 0 <= i < |rule.actions| ==> !SetsAny(rule.actions[i], exact))
  {
    var nodes := rule.conditions;
    OccursAnyByNode(nodes, exact);
    forall i | 0 <= i < |nodes| ensures OccursAnyIn(nodes[i], exact) <==> ShallowIn(nodes[i], exact) {
      assert SavableNode(nodes[i]);
      if ShallowIn(nodes[i], exact) {
        ShallowOccurs(nodes[i], exact);
      }
      if id :| id in exact && OccursIn(nodes[i], id) && nodes[i].Nested? {
        var j :| 0 <= j < |nodes[i].conditions| && OccursIn(nodes[i].conditions[j], id);
        assert LeafNames(nodes[i].conditions[j], exact);
      }
    }
    forall i | 0 <= i < |nodes| ensures !IsEmptyGroup(nodes[i]) {
      assert SavableNode(nodes[i]);
    }
  }

  /** A rule that tests one payee and sets it. */
  function About(p: Id): Rule {
    Rule([Action("set_payee", Ref(p))], [Leaf("payee_id", Ref(p))])
  }

  lemma RuleAboutOne(d: map<Id, Id>, p: Id)
    ensures RewriteActions(About(p).actions, d) == About(Follow(d, p)).actions
    ensures ConditionsAfter(About(p).conditions, d) == About(Follow(d, p)).conditions
  {
    var nodes := About(p).conditions;
    if p in d {
      assert OccursIn(nodes[0], p) && p in d.Keys;
      assert Occurs(nodes, p);
    }
  }

  lemma RulesAboutOne(payees: Payees, norm: Normalizer, p: Id, r: Id)
    ensures RulesAfter(payees, map[r := About(p)], norm) == map[r := About(Follow(Dedupe(payees, norm), p))]
  {
    RuleAboutOne(Dedupe(payees, norm), p);
  }

  /** 076 alone sends a rule about a payee 072 merged to the keeper; after 072 it leaves it. */
  lemma RuleAboutMerged(payees: Payees, norm: Normalizer, p: Id, r: Id)
    requires p in Exactly(payees)
    ensures p in payees && p !in PayeesAfter(payees, EXACT)
    ensures RulesAfter(PayeesAfter(payees, EXACT), map[r := About(p)], norm) == map[r := About(p)]
    ensures RulesAfter(payees, map[r := About(p)], norm) == map[r := About(Keeper(payees, norm, p))]
  {
    MergesSplit(payees, norm);
    FollowIsKeeper(payees, norm, p);
    RulesAboutOne(payees, norm, p, r);
    RulesAboutOne(PayeesAfter(payees, EXACT), norm, p, r);
  }

  const TWO_OF_ONE_NAME: Payees := map[1 := Payee(7, 4, "ACME", 0), 2 := Payee(7, 5, "ACME", 1)]

  /** Two payees of one name and a rule about the younger: 072 deletes that payee, and after both
      migrations the rule still tests and sets it, where 076 alone would send it to the older. */
  lemma RuleLeftDanglingExample(norm: Normalizer)
    ensures 2 !in PayeesAfter(TWO_OF_ONE_NAME, EXACT)
    ensures RulesAfter(PayeesAfter(TWO_OF_ONE_NAME, EXACT), map[9 := About(2)], norm) == map[9 := About(2)]
    ensures RulesAfter(TWO_OF_ONE_NAME, map[9 := About(2)], norm) == map[9 := About(1)]
  {
    KeeperIsUnique(TWO_OF_ONE_NAME, EXACT, 2, 1);
    KeeperIsUnique(TWO_OF_ONE_NAME, norm, 2, 1);
    RuleAboutMerged(TWO_OF_ONE_NAME, norm, 2, 9);
  }
}
