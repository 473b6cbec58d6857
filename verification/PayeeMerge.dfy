/** Migration 076: fold every payee into the oldest one with its workspace and normalised
    name, statement by statement, and what that does to the tables around it. */
module PayeeMerge {
  import opened Wrappers
  import opened PayeeTables
  import opened PayeeRules

  // ---------- The statements ----------

  /** The order in which documents are ranked: older first, then by id. */
  predicate RanksBefore(taxIds: TaxIds, a: Id, b: Id)
    requires a in taxIds && b in taxIds
  {
    taxIds[a].created < taxIds[b].created || (taxIds[a].created == taxIds[b].created && a < b)
  }

  /** A duplicate's document of a kind its keeper has none of. */
  predicate IsCandidate(taxIds: TaxIds, d: map<Id, Id>, t: Id)
    requires t in taxIds
  {
    && taxIds[t].payee in d
    && !exists e :: e in taxIds && taxIds[e].payee == d[taxIds[t].payee] && taxIds[e].kind == taxIds[t].kind
  }

  /** The first in that order of the candidates for one keeper and kind. */
  predicate IsFirstRanked(taxIds: TaxIds, d: map<Id, Id>, t: Id)
    requires t in taxIds
  {
    && IsCandidate(taxIds, d, t)
    && !exists u :: u in taxIds && IsCandidate(taxIds, d, u)
          && d[taxIds[u].payee] == d[taxIds[t].payee] && taxIds[u].kind == taxIds[t].kind
          && RanksBefore(taxIds, u, t)
  }

  function MoveTaxIds(taxIds: TaxIds, d: map<Id, Id>): TaxIds {
    map t | t in taxIds ::
      if IsFirstRanked(taxIds, d, t) then taxIds[t].(payee := d[taxIds[t].payee]) else taxIds[t]
  }

  function RepointTransactions(transactions: Transactions, d: map<Id, Id>): Transactions {
    map t | t in transactions ::
      if transactions[t].Some? then Some(Follow(d, transactions[t].value)) else None
  }

  function RepointMappings(mappings: Mappings, payees: Payees, d: map<Id, Id>): Mappings
    requires forall p :: p in d ==> d[p] in payees
  {
    map m | m in mappings ::
      if mappings[m].target in d then
        var target := d[mappings[m].target];
        mappings[m].(target := target, workspace := payees[target].workspace)
      else mappings[m]
  }

  /** Leaves one mapping per duplicate, under the duplicate's own id, overwriting any there. */
  function InsertMappings(mappings: Mappings, payees: Payees, d: map<Id, Id>): Mappings
    requires forall p :: p in d ==> p in payees
  {
    mappings + map p | p in d ::
      if p in mappings then mappings[p].(target := d[p], workspace := payees[p].workspace)
      else Mapping(payees[p].user, payees[p].workspace, d[p])
  }

  function RewriteRuleActions(rules: Rules, d: map<Id, Id>): Rules {
    map r | r in rules :: rules[r].(actions := RewriteActions(rules[r].actions, d))
  }

  /** One iteration of the loop over the duplicates, on every rule. */
  function RewriteRuleConditions(rules: Rules, source: Id, target: Id): Rules {
    map r | r in rules :: rules[r].(conditions := RewriteConditions(rules[r].conditions, source, target))
  }

  function RuleConditionsAfter(rules: Rules, d: map<Id, Id>): Rules {
    map r | r in rules :: rules[r].(conditions := ConditionsAfter(rules[r].conditions, d))
  }

  // ---------- The whole migration, table by table, up to the unique index ----------

  function PayeesAfter(payees: Payees, norm: Normalizer): Payees {
    DeletePayees(payees, Dedupe(payees, norm).Keys)
  }

  function TaxIdsAfter(payees: Payees, taxIds: TaxIds, norm: Normalizer): TaxIds {
    var d := Dedupe(payees, norm);
    CascadeTaxIds(MoveTaxIds(taxIds, d), d.Keys)
  }

  function TransactionsAfter(payees: Payees, transactions: Transactions, norm: Normalizer): Transactions {
    var d := Dedupe(payees, norm);
    SetNull(RepointTransactions(transactions, d), d.Keys)
  }

  /** The mapping table just before the delete. */
  function MappingsToKeepers(payees: Payees, mappings: Mappings, norm: Normalizer): Mappings {
    var d := Dedupe(payees, norm);
    DedupeIsOneHop(payees, norm);
    InsertMappings(RepointMappings(mappings, payees, d), payees, d)
  }

  function MappingsAfter(payees: Payees, mappings: Mappings, norm: Normalizer): Mappings {
    CascadeMappings(MappingsToKeepers(payees, mappings, norm), Dedupe(payees, norm).Keys)
  }

  function RulesAfter(payees: Payees, rules: Rules, norm: Normalizer): Rules {
    var d := Dedupe(payees, norm);
    RuleConditionsAfter(RewriteRuleActions(rules, d), d)
  }

  class PayeeStore {
    var payees: Payees
    var taxIds: TaxIds
    var transactions: Transactions
    var mappings: Mappings
    var rules: Rules

    /** Deletes payees, with the actions of the three foreign keys that point at them. */
    method Delete(gone: set<Id>)
      modifies this
      ensures old(Consistent(payees, taxIds, transactions, mappings)) ==>
                Consistent(payees, taxIds, transactions, mappings)
      ensures payees == DeletePayees(old(payees), gone)
      ensures taxIds == CascadeTaxIds(old(taxIds), gone)
      ensures transactions == SetNull(old(transactions), gone)
      ensures mappings == CascadeMappings(old(mappings), gone)
      ensures rules == old(rules)
    {
      if Consistent(payees, taxIds, transactions, mappings) {
        DeleteLosesOnlyTheGone(payees, taxIds, transactions, mappings, gone);
      }
      payees := DeletePayees(payees, gone);
      taxIds := CascadeTaxIds(taxIds, gone);
      transactions := SetNull(transactions, gone);
      mappings := CascadeMappings(mappings, gone);
    }

    /** The loop over the temporary table, whose rows come in no promised order. */
    method RewriteAllConditions(d: map<Id, Id>)
      requires OneHop(d)
      modifies this`rules
      ensures rules == RuleConditionsAfter(old(rules), d)
    {
      ghost var start := rules;
      var left := d.Keys;
      ghost var done: map<Id, Id> := map[];
      NothingRewrittenYet(rules);
      while left != {}
        invariant left <= d.Keys
        invariant done == map s | s in d && s !in left :: d[s]
        invariant rules == RuleConditionsAfter(start, done)
        decreases left
      {
        var source :| source in left;
        RuleLoopStep(start, done, source, d[source]);
        rules := RewriteRuleConditions(rules, source, d[source]);
        left := left - {source};
        done := done[source := d[source]];
      }
      assert done == d;
    }

    method Upgrade(norm: Normalizer)
      modifies this
      ensures NamesUnique(payees, norm)
      ensures old(Consistent(payees, taxIds, transactions, mappings)) ==>
                Consistent(payees, taxIds, transactions, mappings)
      ensures payees == PayeesAfter(old(payees), norm)
      ensures taxIds == TaxIdsAfter(old(payees), old(taxIds), norm)
      ensures transactions == TransactionsAfter(old(payees), old(transactions), norm)
      ensures mappings == MappingsAfter(old(payees), old(mappings), norm)
      ensures rules == RulesAfter(old(payees), old(rules), norm)
    {
      hide Consistent, NamesUnique;
      var dedupe := Dedupe(payees, norm);
      DedupeIsOneHop(payees, norm);
      OnePayeePerName(payees, norm);
      if Consistent(payees, taxIds, transactions, mappings) {
        MergeStaysConsistent(payees, taxIds, transactions, mappings, norm);
      }
      taxIds := MoveTaxIds(taxIds, dedupe);
      transactions := RepointTransactions(transactions, dedupe);
      mappings := RepointMappings(mappings, payees, dedupe);
      mappings := InsertMappings(mappings, payees, dedupe);
      rules := RewriteRuleActions(rules, dedupe);
      RewriteAllConditions(dedupe);
      Delete(dedupe.Keys);
    }
  }

  lemma NothingRewrittenYet(rules: Rules)
    ensures RuleConditionsAfter(rules, map[]) == rules
  {
    forall r | r in rules ensures ConditionsAfter(rules[r].conditions, map[]) == rules[r].conditions {
    }
  }

  lemma RuleLoopStep(rules: Rules, done: map<Id, Id>, source: Id, target: Id)
    requires source !in done && forall s :: s in done ==> done[s] != source
    ensures RewriteRuleConditions(RuleConditionsAfter(rules, done), source, target)
         == RuleConditionsAfter(rules, done[source := target])
  {
    forall r | r in rules
      ensures RewriteConditions(ConditionsAfter(rules[r].conditions, done), source, target)
           == ConditionsAfter(rules[r].conditions, done[source := target])
    {
      LoopStep(rules[r].conditions, done, source, target);
    }
  }

  // ---------- Names ----------

  /** Exactly one payee is left of every (workspace, normalised name): its oldest row. So the
      unique index that the migration ends with can always be built. */
  lemma OnePayeePerName(payees: Payees, norm: Normalizer)
    ensures NamesUnique(PayeesAfter(payees, norm), norm)
    ensures forall p :: p in PayeesAfter(payees, norm) <==> p in payees && Keeper(payees, norm, p) == p
    ensures forall p :: p in PayeesAfter(payees, norm) ==> PayeesAfter(payees, norm)[p] == payees[p]
    ensures forall p :: p in payees ==> Keeper(payees, norm, p) in PayeesAfter(payees, norm)
  {
    var after := PayeesAfter(payees, norm);
    forall a, b | a in after && b in after && Key(after, norm, a) == Key(after, norm, b) ensures a == b {
      assert b in Group(payees, norm, a);
      KeeperOfGroup(payees, norm, a);
    }
    forall p | p in payees ensures Keeper(payees, norm, p) in after {
      KeeperSurvives(payees, norm, p);
    }
  }

  lemma KeeperSurvives(payees: Payees, norm: Normalizer, p: Id)
    requires p in payees
    ensures Keeper(payees, norm, p) in payees && Keeper(payees, norm, p) !in Dedupe(payees, norm)
  {
    KeeperOfGroup(payees, norm, p);
    assert Keeper(payees, norm, p) in Group(payees, norm, p);
  }

  // ---------- Transactions ----------

  /** No transaction is lost or nulled by the delete, and each keeps the workspace and
      normalised name of its payee, which is now the keeper of the group it pointed into. */
  lemma TransactionsKeepTheirPayee(payees: Payees, transactions: Transactions, norm: Normalizer)
    requires TransactionsResolve(payees, transactions)
    ensures var after := TransactionsAfter(payees, transactions, norm); var left := PayeesAfter(payees, norm);
            && after.Keys == transactions.Keys
            && TransactionsResolve(left, after)
            && forall t :: t in transactions ==>
                 match transactions[t]
                 case None => after[t] == None
                 case Some(p) =>
                   && after[t] == Some(Keeper(payees, norm, p))
                   && Key(left, norm, after[t].value) == Key(payees, norm, p)
  {
    OnePayeePerName(payees, norm);
    forall t | t in transactions && transactions[t].Some?
      ensures TransactionsAfter(payees, transactions, norm)[t] == Some(Keeper(payees, norm, transactions[t].value))
      ensures Key(payees, norm, Keeper(payees, norm, transactions[t].value)) == Key(payees, norm, transactions[t].value)
    {
      FollowIsKeeper(payees, norm, transactions[t].value);
      KeeperSurvives(payees, norm, transactions[t].value);
      KeeperOfGroup(payees, norm, transactions[t].value);
    }
  }

  // ---------- Merge mappings ----------

  lemma MappingTarget(payees: Payees, mappings: Mappings, norm: Normalizer, m: Id)
    requires MappingsResolve(payees, mappings) && m in MappingsToKeepers(payees, mappings, norm)
    ensures var mapping := MappingsToKeepers(payees, mappings, norm)[m];
            && mapping.target in payees && mapping.target !in Dedupe(payees, norm)
            && (if m in Dedupe(payees, norm) then mapping.target == Keeper(payees, norm, m)
                else m in mappings && mapping.target == Keeper(payees, norm, mappings[m].target)
                     && mapping.user == mappings[m].user)
            && mapping.user == (if m in mappings then mappings[m].user else payees[m].user)
            && (m in mappings && m !in Dedupe(payees, norm) && mappings[m].target !in Dedupe(payees, norm) ==>
                  mapping == mappings[m])
  {
    DedupeIsOneHop(payees, norm);
    if m !in Dedupe(payees, norm) {
      FollowIsKeeper(payees, norm, mappings[m].target);
      KeeperSurvives(payees, norm, mappings[m].target);
    }
  }

  lemma NoMappingCascades(payees: Payees, mappings: Mappings, norm: Normalizer)
    requires MappingsResolve(payees, mappings)
    ensures MappingsAfter(payees, mappings, norm) == MappingsToKeepers(payees, mappings, norm)
  {
    var before := MappingsToKeepers(payees, mappings, norm);
    forall m | m in before ensures before[m].target !in Dedupe(payees, norm) {
      MappingTarget(payees, mappings, norm, m);
    }
  }

  /** The mapping left behind for a deleted payee leads straight to its keeper; every other
      mapping is kept and follows its target; none points at a deleted payee. */
  lemma MappingsLeadToKeepers(payees: Payees, mappings: Mappings, norm: Normalizer)
    requires MappingsResolve(payees, mappings)
    ensures var after := MappingsAfter(payees, mappings, norm); var d := Dedupe(payees, norm);
            && MappingsResolve(PayeesAfter(payees, norm), after)
            && after.Keys == mappings.Keys + d.Keys
            && (forall m :: m in after ==>
                  if m in d then after[m].target == Keeper(payees, norm, m)
                  else after[m].target == Keeper(payees, norm, mappings[m].target)
                       && after[m].user == mappings[m].user)
            && (forall m :: m in after ==>
                  after[m].user == if m in mappings then mappings[m].user else payees[m].user)
            && (forall m :: m in mappings && m !in d && mappings[m].target !in d ==> after[m] == mappings[m])
  {
    NoMappingCascades(payees, mappings, norm);
    forall m | m in MappingsToKeepers(payees, mappings, norm)
      ensures var mapping := MappingsToKeepers(payees, mappings, norm)[m];
              && mapping.target in payees && mapping.target !in Dedupe(payees, norm)
              && (if m in Dedupe(payees, norm) then mapping.target == Keeper(payees, norm, m)
                  else m in mappings && mapping.target == Keeper(payees, norm, mappings[m].target)
                       && mapping.user == mappings[m].user)
              && mapping.user == (if m in mappings then mappings[m].user else payees[m].user)
              && (m in mappings && m !in Dedupe(payees, norm) && mappings[m].target !in Dedupe(payees, norm) ==>
                    mapping == mappings[m])
    {
      MappingTarget(payees, mappings, norm, m);
    }
  }

  /** Every mapping the migration touched carries the workspace of the payee it leads to. */
  lemma TouchedMappingsMoveWorkspace(payees: Payees, mappings: Mappings, norm: Normalizer, m: Id)
    requires MappingsResolve(payees, mappings)
    requires m in Dedupe(payees, norm) || (m in mappings && mappings[m].target in Dedupe(payees, norm))
    ensures var after := MappingsAfter(payees, mappings, norm);
            m in after && after[m].target in payees && after[m].workspace == payees[after[m].target].workspace
  {
    NoMappingCascades(payees, mappings, norm);
    MappingTarget(payees, mappings, norm, m);
    if m in Dedupe(payees, norm) {
      KeeperOfGroup(payees, norm, m);
    }
  }

  // ---------- Tax ids ----------

  lemma RanksAreTotal(taxIds: TaxIds, a: Id, b: Id)
    requires a in taxIds && b in taxIds && a != b
    ensures RanksBefore(taxIds, a, b) || RanksBefore(taxIds, b, a)
  {
  }

  /** The documents left are the survivors' own and each first-ranked document of a duplicate. */
  lemma TaxIdsLeft(payees: Payees, taxIds: TaxIds, norm: Normalizer, t: Id)
    ensures var d := Dedupe(payees, norm); var after := TaxIdsAfter(payees, taxIds, norm);
            && (t in after <==> t in taxIds && (taxIds[t].payee !in d || IsFirstRanked(taxIds, d, t)))
            && (t in after ==> after[t] == taxIds[t].(payee := Follow(d, taxIds[t].payee)))
  {
    DedupeIsOneHop(payees, norm);
  }

  /** At most one document of each kind per payee, in every case. */
  lemma TaxIdKindsStayUnique(payees: Payees, taxIds: TaxIds, norm: Normalizer)
    requires TaxIdsResolve(payees, taxIds) && KindsUnique(taxIds)
    ensures KindsUnique(TaxIdsAfter(payees, taxIds, norm))
    ensures TaxIdsResolve(PayeesAfter(payees, norm), TaxIdsAfter(payees, taxIds, norm))
  {
    var d := Dedupe(payees, norm);
    var after := TaxIdsAfter(payees, taxIds, norm);
    forall a, b | a in after && b in after && a != b
      ensures after[a].payee != after[b].payee || after[a].kind != after[b].kind
    {
      TaxIdsLeft(payees, taxIds, norm, a);
      TaxIdsLeft(payees, taxIds, norm, b);
      RanksAreTotal(taxIds, a, b);
    }
    DedupeIsOneHop(payees, norm);
    forall t | t in after ensures after[t].payee in PayeesAfter(payees, norm) {
      TaxIdsLeft(payees, taxIds, norm, t);
    }
  }

  /** The migration leaves the tables consistent. */
  lemma MergeStaysConsistent(
    payees: Payees, taxIds: TaxIds, transactions: Transactions, mappings: Mappings, norm: Normalizer)
    requires Consistent(payees, taxIds, transactions, mappings)
    ensures Consistent(PayeesAfter(payees, norm), TaxIdsAfter(payees, taxIds, norm),
                       TransactionsAfter(payees, transactions, norm), MappingsAfter(payees, mappings, norm))
  {
    TransactionsKeepTheirPayee(payees, transactions, norm);
    MappingsLeadToKeepers(payees, mappings, norm);
    TaxIdKindsStayUnique(payees, taxIds, norm);
  }

  /** A survivor's own documents are never replaced. */
  lemma OwnTaxIdsAreKept(payees: Payees, taxIds: TaxIds, norm: Normalizer, t: Id)
    requires t in taxIds && taxIds[t].payee in PayeesAfter(payees, norm)
    ensures t in TaxIdsAfter(payees, taxIds, norm) && TaxIdsAfter(payees, taxIds, norm)[t] == taxIds[t]
  {
    TaxIdsLeft(payees, taxIds, norm, t);
  }

  /** A document that changed hands fills a kind its keeper lacked, and no other duplicate of
      that keeper had an older one. */
  lemma MovedTaxIdIsOldest(payees: Payees, taxIds: TaxIds, norm: Normalizer, t: Id, u: Id)
    requires TaxIdsResolve(payees, taxIds)
    requires t in TaxIdsAfter(payees, taxIds, norm) && t in taxIds
    requires TaxIdsAfter(payees, taxIds, norm)[t].payee != taxIds[t].payee
    requires u in taxIds && taxIds[u].kind == taxIds[t].kind
    requires Keeper(payees, norm, taxIds[u].payee) == TaxIdsAfter(payees, taxIds, norm)[t].payee
    ensures taxIds[u].payee != TaxIdsAfter(payees, taxIds, norm)[t].payee
    ensures u == t || taxIds[t].created < taxIds[u].created || (taxIds[t].created == taxIds[u].created && t < u)
  {
    var d := Dedupe(payees, norm);
    TaxIdsLeft(payees, taxIds, norm, t);
    assert IsFirstRanked(taxIds, d, t);
    if u != t {
      RanksAreTotal(taxIds, t, u);
      assert taxIds[u].payee in d;
      assert IsCandidate(taxIds, d, u);
    }
  }

  lemma {:induction false} FirstRankedExists(taxIds: TaxIds, s: set<Id>) returns (t: Id)
    requires s != {}
    requires forall u :: u in s ==> u in taxIds
    ensures t in s && forall u :: u in s && u != t ==> RanksBefore(taxIds, t, u)
  {
    var x :| x in s;
    t := x;
    if s - {x} != {} {
      var y := FirstRankedExists(taxIds, s - {x});
      RanksAreTotal(taxIds, x, y);
      t := if RanksBefore(taxIds, x, y) then x else y;
    }
    forall u | u in s && u != t ensures RanksBefore(taxIds, t, u) {
      assert u == x || u in s - {x};
    }
  }

  lemma CandidateHasFirstRanked(taxIds: TaxIds, d: map<Id, Id>, t: Id) returns (w: Id)
    requires t in taxIds && IsCandidate(taxIds, d, t)
    ensures w in taxIds && IsFirstRanked(taxIds, d, w)
    ensures d[taxIds[w].payee] == d[taxIds[t].payee] && taxIds[w].kind == taxIds[t].kind
  {
    var candidates := set u | u in taxIds && IsCandidate(taxIds, d, u)
                              && d[taxIds[u].payee] == d[taxIds[t].payee] && taxIds[u].kind == taxIds[t].kind;
    assert t in candidates;
    w := FirstRankedExists(taxIds, candidates);
    forall u | u in taxIds && IsCandidate(taxIds, d, u)
               && d[taxIds[u].payee] == d[taxIds[w].payee] && taxIds[u].kind == taxIds[w].kind
      ensures !RanksBefore(taxIds, u, w)
    {
      assert u in candidates;
    }
  }

  /** One of `owners` has a document of this kind. */
  ghost predicate HasKind(taxIds: TaxIds, owners: set<Id>, kind: string) {
    exists t :: t in taxIds && taxIds[t].payee in owners && taxIds[t].kind == kind
  }

  /** A surviving payee has a kind of document exactly when some member of its group had one. */
  lemma KeeperHasGroupsKinds(payees: Payees, taxIds: TaxIds, norm: Normalizer, k: Id, kind: string)
    requires TaxIdsResolve(payees, taxIds) && k in PayeesAfter(payees, norm)
    ensures HasKind(TaxIdsAfter(payees, taxIds, norm), {k}, kind) <==> HasKind(taxIds, Group(payees, norm, k), kind)
  {
    var after := TaxIdsAfter(payees, taxIds, norm);
    OnePayeePerName(payees, norm);
    KeeperOfGroup(payees, norm, k);
    if t :| t in after && after[t].payee == k && after[t].kind == kind {
      TaxIdsLeft(payees, taxIds, norm, t);
      KeeperOfGroup(payees, norm, taxIds[t].payee);
      assert taxIds[t].payee in Group(payees, norm, k);
    }
    if t :| t in taxIds && taxIds[t].payee in Group(payees, norm, k) && taxIds[t].kind == kind {
      var w := GroupKindReachesKeeper(payees, taxIds, norm, k, t);
    }
  }

  lemma GroupKindReachesKeeper(payees: Payees, taxIds: TaxIds, norm: Normalizer, k: Id, t: Id) returns (w: Id)
    requires k in PayeesAfter(payees, norm)
    requires t in taxIds && taxIds[t].payee in Group(payees, norm, k)
    ensures w in TaxIdsAfter(payees, taxIds, norm)
    ensures TaxIdsAfter(payees, taxIds, norm)[w].payee == k
    ensures TaxIdsAfter(payees, taxIds, norm)[w].kind == taxIds[t].kind
  {
    OnePayeePerName(payees, norm);
    KeeperOfGroup(payees, norm, k);
    if e :| e in taxIds && taxIds[e].payee == k && taxIds[e].kind == taxIds[t].kind {
      OwnTaxIdsAreKept(payees, taxIds, norm, e);
      w := e;
    } else {
      w := CandidateHasFirstRanked(taxIds, Dedupe(payees, norm), t);
      TaxIdsLeft(payees, taxIds, norm, w);
    }
  }

  // ---------- Rules ----------

  /** Actions keep their number, order and operation; one that sets a payee now sets the keeper
      of that payee's group, and every other action is untouched. */
  lemma ActionsFollowKeepers(payees: Payees, rules: Rules, norm: Normalizer, r: Id, i: nat)
    requires r in rules && i < |rules[r].actions|
    ensures RulesAfter(payees, rules, norm).Keys == rules.Keys
    ensures |RulesAfter(payees, rules, norm)[r].actions| == |rules[r].actions|
    ensures var before, after := rules[r].actions[i], RulesAfter(payees, rules, norm)[r].actions[i];
            if before.op == "set_payee" && before.value.Ref? && before.value.id in payees
            then after == Action("set_payee", Ref(Keeper(payees, norm, before.value.id)))
            else after == before
  {
    var before := rules[r].actions[i];
    if before.op == "set_payee" && before.value.Ref? && before.value.id in payees {
      FollowIsKeeper(payees, norm, before.value.id);
    }
  }

  /** A rule keeps its place and its number of conditions, and it still tests a deleted payee
      afterwards exactly when one sat deeper than one group. */
  lemma RulesTestSurvivors(payees: Payees, rules: Rules, norm: Normalizer, r: Id)
    requires r in rules
    ensures RulesAfter(payees, rules, norm).Keys == rules.Keys
    ensures |RulesAfter(payees, rules, norm)[r].conditions| == |rules[r].conditions|
    ensures OccursAny(RulesAfter(payees, rules, norm)[r].conditions, Dedupe(payees, norm).Keys) <==>
            AnyDeep(rules[r].conditions, Dedupe(payees, norm).Keys)
  {
    DedupeIsOneHop(payees, norm);
    TestedAfterwards(rules[r].conditions, Dedupe(payees, norm));
  }
}
