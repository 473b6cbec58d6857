/** The payee tables the merge migrations rewrite, and the choice of the payee that a group
    of duplicates is folded into. */
module PayeeTables {
  import opened Wrappers

  type Id = nat

  datatype Payee = Payee(workspace: Id, user: Id, name: string, created: int)

  datatype TaxId = TaxId(payee: Id, kind: string, value: string, created: int)

  datatype Mapping = Mapping(user: Id, workspace: Id, target: Id)

  type Payees = map<Id, Payee>
  type TaxIds = map<Id, TaxId>
  type Transactions = map<Id, Option<Id>>
  type Mappings = map<Id, Mapping>

  /** How a migration normalises a name: 072 compares names as they are, 076 trims and
      lower-cases them. Only that it is a function of the name matters. */
  type Normalizer = string -> string

  function Key(payees: Payees, norm: Normalizer, p: Id): (Id, string)
    requires p in payees
  {
    (payees[p].workspace, norm(payees[p].name))
  }

  /** Rows with the same workspace and normalised name, including `p` itself. */
  function Group(payees: Payees, norm: Normalizer, p: Id): set<Id>
    requires p in payees
  {
    set q | q in payees && Key(payees, norm, q) == Key(payees, norm, p)
  }

  /** The order in which a group is ranked: older first, then by id. */
  predicate NotAfter(payees: Payees, a: Id, b: Id)
    requires a in payees && b in payees
  {
    payees[a].created < payees[b].created || (payees[a].created == payees[b].created && a <= b)
  }

  predicate IsOldest(payees: Payees, s: set<Id>, m: Id)
    requires s <= payees.Keys
  {
    m in s && forall q :: q in s ==> NotAfter(payees, m, q)
  }

  lemma {:induction false} OldestExists(payees: Payees, s: set<Id>)
    requires s <= payees.Keys && s != {}
    ensures exists m :: IsOldest(payees, s, m)
  {
    var x :| x in s;
    if s == {x} {
      assert IsOldest(payees, s, x);
    } else {
      OldestExists(payees, s - {x});
      var y :| IsOldest(payees, s - {x}, y);
      var m := if NotAfter(payees, x, y) then x else y;
      forall q | q in s ensures NotAfter(payees, m, q) {
        assert q == x || q in s - {x};
      }
      assert IsOldest(payees, s, m);
    }
  }

  /** The payee a group is folded into: its first row in that order. */
  function Keeper(payees: Payees, norm: Normalizer, p: Id): (k: Id)
    requires p in payees
    ensures IsOldest(payees, Group(payees, norm, p), k)
  {
    var group := Group(payees, norm, p);
    assert p in group;
    OldestExists(payees, group);
    var m :| IsOldest(payees, group, m);
    m
  }

  /** In the table's own terms: the keeper has the workspace and normalised name of the payee, no such
      row was created before it, and of those created at the same time none has a smaller id. */
  lemma KeeperIsOldestRow(payees: Payees, norm: Normalizer, p: Id, k: Id)
    requires p in payees
    ensures k == Keeper(payees, norm, p) <==>
            && k in payees
            && payees[k].workspace == payees[p].workspace && norm(payees[k].name) == norm(payees[p].name)
            && forall q | q in payees
                 && payees[q].workspace == payees[p].workspace && norm(payees[q].name) == norm(payees[p].name) ::
                   payees[k].created < payees[q].created || (payees[k].created == payees[q].created && k <= q)
  {
    forall q | q in payees
      ensures q in Group(payees, norm, p) <==>
              payees[q].workspace == payees[p].workspace && norm(payees[q].name) == norm(payees[p].name)
    {
    }
  }

  lemma KeeperIsUnique(payees: Payees, norm: Normalizer, p: Id, m: Id)
    requires p in payees && IsOldest(payees, Group(payees, norm, p), m)
    ensures m == Keeper(payees, norm, p)
  {
  }

  /** Members of one group share their keeper, which is a member and its own keeper. */
  lemma KeeperOfGroup(payees: Payees, norm: Normalizer, p: Id)
    requires p in payees
    ensures Keeper(payees, norm, p) in payees
    ensures Key(payees, norm, Keeper(payees, norm, p)) == Key(payees, norm, p)
    ensures forall q :: q in Group(payees, norm, p) ==> Keeper(payees, norm, q) == Keeper(payees, norm, p)
  {
    forall q | q in Group(payees, norm, p) ensures Keeper(payees, norm, q) == Keeper(payees, norm, p) {
      assert Group(payees, norm, q) == Group(payees, norm, p);
      KeeperIsUnique(payees, norm, p, Keeper(payees, norm, q));
    }
  }

  /** The temporary table of a merge: every duplicate with the keeper it is folded into. */
  function Dedupe(payees: Payees, norm: Normalizer): (d: map<Id, Id>)
    ensures forall p :: p in d <==> p in payees && Keeper(payees, norm, p) != p
    ensures forall p :: p in d ==> d[p] == Keeper(payees, norm, p)
  {
    map p | p in payees && Keeper(payees, norm, p) != p :: Keeper(payees, norm, p)
  }

  /** A payee's place in its group, the keeper being first. */
  function DuplicateRank(payees: Payees, norm: Normalizer, p: Id): nat
    requires p in payees
  {
    |set q | q in Group(payees, norm, p) && NotAfter(payees, q, p)|
  }

  /** A payee is folded into another exactly when a row of its workspace and normalised name is older,
      or as old with a smaller id. */
  lemma DuplicatesExactly(payees: Payees, norm: Normalizer, p: Id)
    ensures p in Dedupe(payees, norm) <==>
            && p in payees
            && exists q :: q in payees && payees[q].workspace == payees[p].workspace
                 && norm(payees[q].name) == norm(payees[p].name)
                 && (payees[q].created < payees[p].created || (payees[q].created == payees[p].created && q < p))
  {
    if p in payees {
      KeeperIsOldestRow(payees, norm, p, Keeper(payees, norm, p));
      KeeperIsOldestRow(payees, norm, p, p);
    }
  }

  /** The two ways the migrations pick duplicates agree: being another row than the keeper, as 072
      asks, is being ranked second or later, as 076 asks. */
  lemma DedupeIsRankAboveOne(payees: Payees, norm: Normalizer, p: Id)
    ensures p in Dedupe(payees, norm) <==> p in payees && DuplicateRank(payees, norm, p) > 1
  {
    if p in payees {
      var k, upTo := Keeper(payees, norm, p), set q | q in Group(payees, norm, p) && NotAfter(payees, q, p);
      assert p in upTo && k in upTo;
      if k == p {
        assert upTo == {p};
      } else {
        assert upTo == upTo - {p, k} + {p, k};
      }
    }
  }

  /** No keeper is itself a duplicate, so following the table once is enough. */
  lemma DedupeIsOneHop(payees: Payees, norm: Normalizer)
    ensures forall p :: p in Dedupe(payees, norm) ==>
              Dedupe(payees, norm)[p] in payees && Dedupe(payees, norm)[p] !in Dedupe(payees, norm)
  {
    forall p | p in Dedupe(payees, norm)
      ensures Dedupe(payees, norm)[p] in payees && Dedupe(payees, norm)[p] !in Dedupe(payees, norm)
    {
      KeeperOfGroup(payees, norm, p);
      assert Keeper(payees, norm, p) in Group(payees, norm, p);
    }
  }

  /** Where a merge sends a payee id. */
  function Follow(d: map<Id, Id>, p: Id): Id {
    if p in d then d[p] else p
  }

  lemma FollowIsKeeper(payees: Payees, norm: Normalizer, p: Id)
    requires p in payees
    ensures Follow(Dedupe(payees, norm), p) == Keeper(payees, norm, p)
  {
  }

  // ---------- Foreign keys ----------

  ghost predicate TransactionsResolve(payees: Payees, transactions: Transactions) {
    forall t :: t in transactions && transactions[t].Some? ==> transactions[t].value in payees
  }

  ghost predicate TaxIdsResolve(payees: Payees, taxIds: TaxIds) {
    forall t :: t in taxIds ==> taxIds[t].payee in payees
  }

  ghost predicate MappingsResolve(payees: Payees, mappings: Mappings) {
    forall m :: m in mappings ==> mappings[m].target in payees
  }

  /** The table's unique constraint on (payee, kind). */
  ghost predicate KindsUnique(taxIds: TaxIds) {
    forall a, b :: a in taxIds && b in taxIds && a != b ==>
      taxIds[a].payee != taxIds[b].payee || taxIds[a].kind != taxIds[b].kind
  }

  /** The unique index on (workspace, normalised name). */
  ghost predicate NamesUnique(payees: Payees, norm: Normalizer) {
    forall a, b :: a in payees && b in payees && Key(payees, norm, a) == Key(payees, norm, b) ==> a == b
  }

  /** What the database holds to be true of the tables: the foreign keys and the constraint. */
  ghost predicate Consistent(payees: Payees, taxIds: TaxIds, transactions: Transactions, mappings: Mappings) {
    && TransactionsResolve(payees, transactions) && TaxIdsResolve(payees, taxIds)
    && MappingsResolve(payees, mappings) && KindsUnique(taxIds)
  }

  // ---------- Deleting payees, with the foreign-key actions ----------

  function DeletePayees(payees: Payees, gone: set<Id>): Payees {
    payees - gone
  }

  /** Transactions lose their payee when it is deleted. */
  function SetNull(transactions: Transactions, gone: set<Id>): Transactions {
    map t | t in transactions ::
      if transactions[t].Some? && transactions[t].value in gone then None else transactions[t]
  }

  /** Tax ids go with their payee. */
  function CascadeTaxIds(taxIds: TaxIds, gone: set<Id>): TaxIds {
    map t | t in taxIds && taxIds[t].payee !in gone :: taxIds[t]
  }

  /** Mappings go with the payee they lead to. */
  function CascadeMappings(mappings: Mappings, gone: set<Id>): Mappings {
    map m | m in mappings && mappings[m].target !in gone :: mappings[m]
  }

  /** The rows that point at one payee. */
  ghost function TransactionsOf(transactions: Transactions, p: Id): set<Id> {
    set t | t in transactions && transactions[t] == Some(p)
  }

  ghost function TaxIdsOf(taxIds: TaxIds, p: Id): set<Id> {
    set t | t in taxIds && taxIds[t].payee == p
  }

  ghost function MappingsOf(mappings: Mappings, p: Id): set<Id> {
    set m | m in mappings && mappings[m].target == p
  }

  /** A delete leaves no dangling reference, keeps every transaction, and takes nothing from a
      payee that survives it. */
  lemma DeleteLosesOnlyTheGone(
    payees: Payees, taxIds: TaxIds, transactions: Transactions, mappings: Mappings, gone: set<Id>)
    requires Consistent(payees, taxIds, transactions, mappings)
    ensures Consistent(DeletePayees(payees, gone), CascadeTaxIds(taxIds, gone),
                       SetNull(transactions, gone), CascadeMappings(mappings, gone))
    ensures SetNull(transactions, gone).Keys == transactions.Keys
    ensures forall p :: TransactionsOf(SetNull(transactions, gone), p)
                     == if p in gone then {} else TransactionsOf(transactions, p)
    ensures forall p :: TaxIdsOf(CascadeTaxIds(taxIds, gone), p) == if p in gone then {} else TaxIdsOf(taxIds, p)
    ensures forall p :: MappingsOf(CascadeMappings(mappings, gone), p)
                     == if p in gone then {} else MappingsOf(mappings, p)
    ensures forall t :: t in CascadeTaxIds(taxIds, gone) ==> CascadeTaxIds(taxIds, gone)[t] == taxIds[t]
    ensures forall m :: m in CascadeMappings(mappings, gone) ==> CascadeMappings(mappings, gone)[m] == mappings[m]
  {
    forall p ensures TransactionsOf(SetNull(transactions, gone), p)
                  == if p in gone then {} else TransactionsOf(transactions, p) {
    }
    forall p ensures TaxIdsOf(CascadeTaxIds(taxIds, gone), p) == if p in gone then {} else TaxIdsOf(taxIds, p) {
    }
    forall p ensures MappingsOf(CascadeMappings(mappings, gone), p)
                  == if p in gone then {} else MappingsOf(mappings, p) {
    }
  }
}
