/** Migration 072: the exact-name merge that ran before 076, and what it leaves in each table. */
module PayeeExactMerge {
  import opened PayeeTables
  import opened PayeeMerge

  /** 072 compares names as they are stored. */
  const EXACT: Normalizer := (name: string) => name

  // ---------- The statements ----------

  function RetargetMappings(mappings: Mappings, d: map<Id, Id>): Mappings {
    map m | m in mappings :: mappings[m].(target := Follow(d, mappings[m].target))
  }

  /** Moves every document of a kind the keeper lacks, without choosing among duplicates. */
  function MoveTaxIdsUnranked(taxIds: TaxIds, d: map<Id, Id>): TaxIds {
    map t | t in taxIds ::
      if IsCandidate(taxIds, d, t) then taxIds[t].(payee := d[taxIds[t].payee]) else taxIds[t]
  }

  function ExactMappingsAfter(payees: Payees, mappings: Mappings): Mappings {
    var d := Dedupe(payees, EXACT);
    CascadeMappings(RetargetMappings(mappings, d), d.Keys)
  }

  function ExactTaxIdsAfter(payees: Payees, taxIds: TaxIds): TaxIds {
    var d := Dedupe(payees, EXACT);
    CascadeTaxIds(MoveTaxIdsUnranked(taxIds, d), d.Keys)
  }

  /** The unique constraint on (payee, kind), as the database tests it. */
  predicate SatisfiesKinds(taxIds: TaxIds)
    ensures SatisfiesKinds(taxIds) <==> KindsUnique(taxIds)
  {
    forall a :: a in taxIds ==> forall b :: b in taxIds ==>
      a == b || taxIds[a].payee != taxIds[b].payee || taxIds[a].kind != taxIds[b].kind
  }

  /** Two duplicates of one keeper bring it the same kind of document, which it lacks. */
  ghost predicate BringSameNewKind(taxIds: TaxIds, d: map<Id, Id>) {
    exists t, u :: t in taxIds && u in taxIds && t != u
      && IsCandidate(taxIds, d, t) && IsCandidate(taxIds, d, u)
      && d[taxIds[t].payee] == d[taxIds[u].payee] && taxIds[t].kind == taxIds[u].kind
  }

  /** The unranked move breaks the constraint exactly when two duplicates of one keeper bring
      the same new kind. */
  lemma UnrankedMoveFailsExactly(taxIds: TaxIds, d: map<Id, Id>)
    requires KindsUnique(taxIds)
    requires forall p :: p in d ==> d[p] !in d
    ensures KindsUnique(MoveTaxIdsUnranked(taxIds, d)) <==> !BringSameNewKind(taxIds, d)
  {
    var moved := MoveTaxIdsUnranked(taxIds, d);
    if BringSameNewKind(taxIds, d) {
      var t, u :| t in taxIds && u in taxIds && t != u
        && IsCandidate(taxIds, d, t) && IsCandidate(taxIds, d, u)
        && d[taxIds[t].payee] == d[taxIds[u].payee] && taxIds[t].kind == taxIds[u].kind;
      assert moved[t].payee == moved[u].payee && moved[t].kind == moved[u].kind;
    } else {
      forall a, b | a in moved && b in moved && a != b
        ensures moved[a].payee != moved[b].payee || moved[a].kind != moved[b].kind
      {
        assert !(IsCandidate(taxIds, d, a) && IsCandidate(taxIds, d, b)
                 && d[taxIds[a].payee] == d[taxIds[b].payee] && taxIds[a].kind == taxIds[b].kind);
      }
    }
  }

  const THREE_OF_ONE_NAME: Payees :=
    map[1 := Payee(7, 4, "ACME", 0), 2 := Payee(7, 5, "ACME", 1), 3 := Payee(7, 6, "ACME", 2)]
  const TWO_DOCUMENTS: TaxIds := map[11 := TaxId(2, "cnpj", "A", 0), 12 := TaxId(3, "cnpj", "B", 0)]

  lemma OldestOfThree()
    ensures Dedupe(THREE_OF_ONE_NAME, EXACT) == map[2 := 1, 3 := 1]
  {
    KeeperIsUnique(THREE_OF_ONE_NAME, EXACT, 1, 1);
    KeeperIsUnique(THREE_OF_ONE_NAME, EXACT, 2, 1);
    KeeperIsUnique(THREE_OF_ONE_NAME, EXACT, 3, 1);
  }

  lemma BothBringOne()
    ensures TaxIdsResolve(THREE_OF_ONE_NAME, TWO_DOCUMENTS) && KindsUnique(TWO_DOCUMENTS)
    ensures BringSameNewKind(TWO_DOCUMENTS, map[2 := 1, 3 := 1])
  {
    assert IsCandidate(TWO_DOCUMENTS, map[2 := 1, 3 := 1], 11);
    assert IsCandidate(TWO_DOCUMENTS, map[2 := 1, 3 := 1], 12);
  }

  /** Three rows of one name are enough: both duplicates bring a document of a kind the oldest
      row lacks, and no constraint was broken before. */
  lemma UnrankedMoveFailsExample()
    ensures TaxIdsResolve(THREE_OF_ONE_NAME, TWO_DOCUMENTS) && KindsUnique(TWO_DOCUMENTS)
    ensures BringSameNewKind(TWO_DOCUMENTS, Dedupe(THREE_OF_ONE_NAME, EXACT))
    ensures !KindsUnique(MoveTaxIdsUnranked(TWO_DOCUMENTS, Dedupe(THREE_OF_ONE_NAME, EXACT)))
  {
    hide MoveTaxIdsUnranked, Dedupe, KindsUnique, BringSameNewKind;
    OldestOfThree();
    BothBringOne();
    UnrankedMoveFailsExactly(TWO_DOCUMENTS, map[2 := 1, 3 := 1]);
  }

  /** The statement on tax ids; `ok` is false where it violates the unique constraint. */
  method UpdateTaxIds(taxIds: TaxIds, d: map<Id, Id>) returns (moved: TaxIds, ok: bool)
    requires KindsUnique(taxIds)
    requires forall p :: p in d ==> d[p] !in d
    ensures moved == MoveTaxIdsUnranked(taxIds, d)
    ensures ok <==> !BringSameNewKind(taxIds, d)
  {
    moved := MoveTaxIdsUnranked(taxIds, d);
    ok := SatisfiesKinds(moved);
    UnrankedMoveFailsExactly(taxIds, d);
  }

  /** Raises, leaving everything as it was, when the unranked move of tax ids breaks their unique
      constraint. Rules are not touched. */
  method Upgrade(store: PayeeStore) returns (ok: bool)
    requires KindsUnique(store.taxIds)
    modifies store
    ensures ok <==> !BringSameNewKind(old(store.taxIds), Dedupe(old(store.payees), EXACT))
    ensures !ok ==> unchanged(store)
    ensures ok ==> store.payees == PayeesAfter(old(store.payees), EXACT)
    ensures ok ==> store.taxIds == ExactTaxIdsAfter(old(store.payees), old(store.taxIds))
    ensures ok ==> store.transactions == TransactionsAfter(old(store.payees), old(store.transactions), EXACT)
    ensures ok ==> store.mappings == ExactMappingsAfter(old(store.payees), old(store.mappings))
    ensures store.rules == old(store.rules)
  {
    var d := Dedupe(store.payees, EXACT);
    DedupeIsOneHop(store.payees, EXACT);
    var beforeTransactions, beforeMappings := store.transactions, store.mappings;
    store.transactions := RepointTransactions(store.transactions, d);
    store.mappings := RetargetMappings(store.mappings, d);
    var moved;
    moved, ok := UpdateTaxIds(store.taxIds, d);
    if !ok {
      store.transactions, store.mappings := beforeTransactions, beforeMappings;
      return;
    }
    store.taxIds := moved;
    store.Delete(d.Keys);
  }

  // ---------- What it leaves ----------

  /** No mapping is lost: each now targets the exact-name keeper of its old target, which exists,
      and is otherwise as it was. */
  lemma ExactMappingsFollow(payees: Payees, mappings: Mappings)
    requires MappingsResolve(payees, mappings)
    ensures var after := ExactMappingsAfter(payees, mappings);
            && after.Keys == mappings.Keys
            && MappingsResolve(PayeesAfter(payees, EXACT), after)
            && forall m :: m in mappings ==>
                 after[m] == mappings[m].(target := Keeper(payees, EXACT, mappings[m].target))
  {
    var d := Dedupe(payees, EXACT);
    forall m | m in mappings
      ensures Follow(d, mappings[m].target) == Keeper(payees, EXACT, mappings[m].target)
      ensures Keeper(payees, EXACT, mappings[m].target) in payees && Keeper(payees, EXACT, mappings[m].target) !in d
    {
      FollowIsKeeper(payees, EXACT, mappings[m].target);
      KeeperSurvives(payees, EXACT, mappings[m].target);
    }
  }

  /** The documents left are the keepers' own and every one of a kind its keeper lacked. */
  lemma ExactTaxIdsLeft(payees: Payees, taxIds: TaxIds, t: Id)
    ensures var d := Dedupe(payees, EXACT); var after := ExactTaxIdsAfter(payees, taxIds);
            && (t in after <==> t in taxIds && (taxIds[t].payee !in d || IsCandidate(taxIds, d, t)))
            && (t in after ==> after[t] == taxIds[t].(payee := Follow(d, taxIds[t].payee)))
  {
    DedupeIsOneHop(payees, EXACT);
  }

  /** Where 072 does not raise, the unique constraint and the foreign key hold afterwards. */
  lemma ExactTaxIdsStayUnique(payees: Payees, taxIds: TaxIds)
    requires TaxIdsResolve(payees, taxIds) && KindsUnique(taxIds)
    requires !BringSameNewKind(taxIds, Dedupe(payees, EXACT))
    ensures KindsUnique(ExactTaxIdsAfter(payees, taxIds))
    ensures TaxIdsResolve(PayeesAfter(payees, EXACT), ExactTaxIdsAfter(payees, taxIds))
  {
    var d, after := Dedupe(payees, EXACT), ExactTaxIdsAfter(payees, taxIds);
    DedupeIsOneHop(payees, EXACT);
    UnrankedMoveFailsExactly(taxIds, d);
    forall a, b | a in after && b in after && a != b
      ensures after[a].payee != after[b].payee || after[a].kind != after[b].kind
    {
      assert a in MoveTaxIdsUnranked(taxIds, d) && b in MoveTaxIdsUnranked(taxIds, d);
    }
    forall t | t in after ensures after[t].payee in PayeesAfter(payees, EXACT) {
      ExactTaxIdsLeft(payees, taxIds, t);
    }
  }

  lemma ExactMergeStaysConsistent(payees: Payees, taxIds: TaxIds, transactions: Transactions, mappings: Mappings)
    requires Consistent(payees, taxIds, transactions, mappings)
    requires !BringSameNewKind(taxIds, Dedupe(payees, EXACT))
    ensures Consistent(PayeesAfter(payees, EXACT), ExactTaxIdsAfter(payees, taxIds),
                       TransactionsAfter(payees, transactions, EXACT), ExactMappingsAfter(payees, mappings))
  {
    TransactionsKeepTheirPayee(payees, transactions, EXACT);
    ExactMappingsFollow(payees, mappings);
    ExactTaxIdsStayUnique(payees, taxIds);
  }

  /** A keeper has a kind of document exactly when some row of its exact name had one. */
  lemma ExactKeeperHasGroupsKinds(payees: Payees, taxIds: TaxIds, k: Id, kind: string)
    requires TaxIdsResolve(payees, taxIds) && k in PayeesAfter(payees, EXACT)
    ensures HasKind(ExactTaxIdsAfter(payees, taxIds), {k}, kind) <==> HasKind(taxIds, Group(payees, EXACT, k), kind)
  {
    var d, after := Dedupe(payees, EXACT), ExactTaxIdsAfter(payees, taxIds);
    OnePayeePerName(payees, EXACT);
    KeeperOfGroup(payees, EXACT, k);
    if t :| t in after && after[t].payee == k && after[t].kind == kind {
      ExactTaxIdsLeft(payees, taxIds, t);
      KeeperOfGroup(payees, EXACT, taxIds[t].payee);
      assert taxIds[t].payee in Group(payees, EXACT, k);
    }
    if t :| t in taxIds && taxIds[t].payee in Group(payees, EXACT, k) && taxIds[t].kind == kind {
      if e :| e in taxIds && taxIds[e].payee == k && taxIds[e].kind == kind {
        ExactTaxIdsLeft(payees, taxIds, e);
      } else {
        FollowIsKeeper(payees, EXACT, taxIds[t].payee);
        assert IsCandidate(taxIds, d, t);
        ExactTaxIdsLeft(payees, taxIds, t);
      }
    }
  }
}
