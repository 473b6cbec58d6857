/** Merge mappings and tax ids after migrations 072 and 076 in a row, against 076 alone. */
module PayeeBothTables {
  import opened PayeeTables
  import opened PayeeMerge
  import opened PayeeExactMerge
  import opened PayeeBothMerges

  // ---------- Merge mappings ----------

  ghost function MappingsAfterBoth(payees: Payees, mappings: Mappings, norm: Normalizer): Mappings {
    MappingsAfter(PayeesAfter(payees, EXACT), ExactMappingsAfter(payees, mappings), norm)
  }

  lemma MappingAfter(payees: Payees, mappings: Mappings, norm: Normalizer, m: Id)
    requires MappingsResolve(payees, mappings) && m in mappings
    ensures var d := Dedupe(payees, norm); var target := mappings[m].target;
            && m in MappingsAfter(payees, mappings, norm)
            && MappingsAfter(payees, mappings, norm)[m] ==
                 if m in d then mappings[m].(target := Keeper(payees, norm, m), workspace := payees[m].workspace)
                 else if target in d
                 then mappings[m].(target := Keeper(payees, norm, target), workspace := payees[target].workspace)
                 else mappings[m]
  {
    NoMappingCascades(payees, mappings, norm);
    KeeperOfGroup(payees, norm, mappings[m].target);
  }

  /** 072 leaves the mapping to end as 076 alone would have it end. */
  ghost predicate MappingIndifferent(payees: Payees, mappings: Mappings, norm: Normalizer, m: Id)
    requires MappingsResolve(payees, mappings) && m in mappings
  {
    var target, workspace := mappings[m].target, mappings[m].workspace;
    var movesAgain := Keeper(payees, EXACT, target) in Second(payees, norm);
    if m in Exactly(payees)
    then Keeper(payees, norm, target) == Keeper(payees, norm, m) && (movesAgain || workspace == payees[m].workspace)
    else m in Second(payees, norm) || movesAgain || target !in Exactly(payees) || workspace == payees[target].workspace
  }

  lemma MappingAlike(payees: Payees, mappings: Mappings, norm: Normalizer, m: Id)
    requires MappingsResolve(payees, mappings) && m in mappings
    ensures m in MappingsAfterBoth(payees, mappings, norm) && m in MappingsAfter(payees, mappings, norm)
    ensures var two, one := MappingsAfterBoth(payees, mappings, norm)[m], MappingsAfter(payees, mappings, norm)[m];
            && (m !in Exactly(payees) ==> two.target == one.target)
            && two.user == one.user == mappings[m].user
            && (two == one <==> MappingIndifferent(payees, mappings, norm, m))
  {
    var mid, moved := PayeesAfter(payees, EXACT), ExactMappingsAfter(payees, mappings);
    var target := mappings[m].target;
    ExactMappingsFollow(payees, mappings);
    MappingAfter(payees, mappings, norm, m);
    MappingAfter(mid, moved, norm, m);
    OnePayeePerName(payees, EXACT);
    MinimumOfMinima(payees, norm, target);
    KeeperOfGroup(payees, EXACT, target);
    KeeperOfGroup(payees, norm, target);
    MergedOnce(payees, norm, m);
    MergedOnce(payees, norm, target);
    MergedOnce(payees, norm, Keeper(payees, EXACT, target));
    if m in payees {
      MinimumOfMinima(payees, norm, m);
      KeeperOfGroup(payees, norm, m);
    }
  }

  lemma NewMappingAlike(payees: Payees, mappings: Mappings, norm: Normalizer, m: Id)
    requires MappingsResolve(payees, mappings) && m !in mappings && m in Second(payees, norm)
    ensures m in MappingsAfterBoth(payees, mappings, norm) && m in MappingsAfter(payees, mappings, norm)
    ensures MappingsAfterBoth(payees, mappings, norm)[m] == MappingsAfter(payees, mappings, norm)[m]
  {
    ExactMappingsFollow(payees, mappings);
    NoMappingCascades(payees, mappings, norm);
    NoMappingCascades(PayeesAfter(payees, EXACT), ExactMappingsAfter(payees, mappings), norm);
    MergedOnce(payees, norm, m);
    OnePayeePerName(payees, EXACT);
  }

  lemma MappingKeys(payees: Payees, mappings: Mappings, norm: Normalizer)
    requires MappingsResolve(payees, mappings)
    ensures MappingsAfterBoth(payees, mappings, norm).Keys == mappings.Keys + Second(payees, norm).Keys
    ensures MappingsAfter(payees, mappings, norm).Keys == mappings.Keys + Alone(payees, norm).Keys
  {
    ExactMappingsFollow(payees, mappings);
    MappingsLeadToKeepers(payees, mappings, norm);
    MappingsLeadToKeepers(PayeesAfter(payees, EXACT), ExactMappingsAfter(payees, mappings), norm);
  }

  lemma EachMappingAlike(payees: Payees, mappings: Mappings, norm: Normalizer, m: Id)
    requires MappingsResolve(payees, mappings) && m in MappingsAfterBoth(payees, mappings, norm)
    ensures m in MappingsAfter(payees, mappings, norm)
    ensures var two, one := MappingsAfterBoth(payees, mappings, norm)[m], MappingsAfter(payees, mappings, norm)[m];
            && (m !in Exactly(payees) ==> two.target == one.target)
            && two.user == one.user
            && (two == one <==> (m in mappings ==> MappingIndifferent(payees, mappings, norm, m)))
  {
    MappingKeys(payees, mappings, norm);
    if m in mappings {
      MappingAlike(payees, mappings, norm, m);
    } else {
      NewMappingAlike(payees, mappings, norm, m);
    }
  }

  /** 072 leaves no mapping behind for the payees it deletes: after both migrations the table lacks
      exactly those ids, where they had no mapping already. Every other mapping has the user it has
      after 076 alone and, unless 072 deleted the payee of its id, leads to the same payee. */
  lemma BothMapAlmostAlike(payees: Payees, mappings: Mappings, norm: Normalizer)
    requires MappingsResolve(payees, mappings)
    ensures var two, one := MappingsAfterBoth(payees, mappings, norm), MappingsAfter(payees, mappings, norm);
            && two.Keys == one.Keys - (Exactly(payees).Keys - mappings.Keys)
            && (forall m :: m in two ==> two[m].user == one[m].user)
            && (forall m :: m in two && m !in Exactly(payees) ==> two[m].target == one[m].target)
  {
    hide MappingsAfterBoth, MappingsAfter;
    var two, one := MappingsAfterBoth(payees, mappings, norm), MappingsAfter(payees, mappings, norm);
    MappingKeys(payees, mappings, norm);
    MergesSplit(payees, norm);
    forall m | m in two
      ensures m in one && two[m].user == one[m].user
      ensures m !in Exactly(payees) ==> two[m].target == one[m].target
    {
      EachMappingAlike(payees, mappings, norm, m);
    }
  }

  /** Two tables, one lacking some keys, are equal when none is lacking and all rows agree. */
  lemma EqualExactly<Row>(two: map<Id, Row>, one: map<Id, Row>, lacking: set<Id>)
    requires lacking <= one.Keys && two.Keys == one.Keys - lacking
    ensures two == one <==> lacking == {} && forall k :: k in two ==> two[k] == one[k]
  {
  }

  /** The mapping tables are equal exactly when every id that 072 deletes had a mapping, and each
      mapping meets the condition above. */
  lemma BothMapAlikeExactly(payees: Payees, mappings: Mappings, norm: Normalizer)
    requires MappingsResolve(payees, mappings)
    ensures MappingsAfterBoth(payees, mappings, norm) == MappingsAfter(payees, mappings, norm) <==>
            && Exactly(payees).Keys <= mappings.Keys
            && forall m :: m in mappings ==> MappingIndifferent(payees, mappings, norm, m)
  {
    hide MappingsAfterBoth, MappingsAfter, MappingIndifferent;
    var two, one := MappingsAfterBoth(payees, mappings, norm), MappingsAfter(payees, mappings, norm);
    var lacking := Exactly(payees).Keys - mappings.Keys;
    BothMapAlmostAlike(payees, mappings, norm);
    assert lacking <= one.Keys && mappings.Keys <= two.Keys by {
      MappingKeys(payees, mappings, norm);
      MergesSplit(payees, norm);
    }
    EqualExactly(two, one, lacking);
    forall m | m in two
      ensures two[m] == one[m] <==> (m in mappings ==> MappingIndifferent(payees, mappings, norm, m))
    {
      EachMappingAlike(payees, mappings, norm, m);
    }
  }

  lemma RecordedMapping(payees: Payees, mappings: Mappings, norm: Normalizer, p: Id)
    requires MappingsResolve(payees, mappings) && p in Dedupe(payees, norm) && p !in mappings
    ensures p in MappingsAfter(payees, mappings, norm)
    ensures MappingsAfter(payees, mappings, norm)[p]
         == Mapping(payees[p].user, payees[p].workspace, Keeper(payees, norm, p))
  {
    NoMappingCascades(payees, mappings, norm);
  }

  lemma OlderOfTwo(norm: Normalizer)
    ensures Alone(TWO_OF_ONE_NAME, norm) == map[2 := 1]
  {
    KeeperIsUnique(TWO_OF_ONE_NAME, norm, 1, 1);
    KeeperIsUnique(TWO_OF_ONE_NAME, norm, 2, 1);
  }

  /** Two payees of one name and no mapping yet: 076 alone would record where the younger went, and
      after 072 it does not. */
  lemma MappingsDifferExample(norm: Normalizer)
    ensures MappingsAfterBoth(TWO_OF_ONE_NAME, map[], norm) == map[]
    ensures MappingsAfter(TWO_OF_ONE_NAME, map[], norm) == map[2 := Mapping(5, 7, 1)]
  {
    hide MappingsAfterBoth, MappingsAfter, Second;
    OlderOfTwo(norm);
    OlderOfTwo(EXACT);
    MergesSplit(TWO_OF_ONE_NAME, norm);
    MappingKeys(TWO_OF_ONE_NAME, map[], norm);
    RecordedMapping(TWO_OF_ONE_NAME, map[], norm, 2);
  }

  // ---------- Tax ids ----------

  ghost function TaxIdsAfterBoth(payees: Payees, taxIds: TaxIds, norm: Normalizer): TaxIds {
    TaxIdsAfter(PayeesAfter(payees, EXACT), ExactTaxIdsAfter(payees, taxIds), norm)
  }

  /** 072 does not raise, on tables that are consistent. */
  ghost predicate Mergeable(payees: Payees, taxIds: TaxIds) {
    TaxIdsResolve(payees, taxIds) && KindsUnique(taxIds) && !BringSameNewKind(taxIds, Exactly(payees))
  }

  lemma GroupOfGroups(payees: Payees, norm: Normalizer, k: Id, p: Id)
    requires k in PayeesAfter(payees, EXACT) && p in payees
    ensures Keeper(payees, EXACT, p) in PayeesAfter(payees, EXACT)
    ensures p in Group(payees, norm, k) <==> Keeper(payees, EXACT, p) in Group(PayeesAfter(payees, EXACT), norm, k)
  {
    OnePayeePerName(payees, EXACT);
    KeeperOfGroup(payees, EXACT, p);
  }

  /** 072 leaves every group the kinds of documents it had. */
  lemma GroupKeepsKinds(payees: Payees, taxIds: TaxIds, norm: Normalizer, k: Id, kind: string)
    requires TaxIdsResolve(payees, taxIds) && k in PayeesAfter(payees, EXACT)
    ensures HasKind(ExactTaxIdsAfter(payees, taxIds), Group(PayeesAfter(payees, EXACT), norm, k), kind) <==>
            HasKind(taxIds, Group(payees, norm, k), kind)
  {
    hide ExactTaxIdsAfter;
    var mid, kept := PayeesAfter(payees, EXACT), ExactTaxIdsAfter(payees, taxIds);
    OnePayeePerName(payees, EXACT);
    if t :| t in kept && kept[t].payee in Group(mid, norm, k) && kept[t].kind == kind {
      ExactTaxIdsLeft(payees, taxIds, t);
      FollowIsKeeper(payees, EXACT, taxIds[t].payee);
      GroupOfGroups(payees, norm, k, taxIds[t].payee);
    }
    if t :| t in taxIds && taxIds[t].payee in Group(payees, norm, k) && taxIds[t].kind == kind {
      var e := Keeper(payees, EXACT, taxIds[t].payee);
      GroupOfGroups(payees, norm, k, taxIds[t].payee);
      ExactKindArrives(payees, taxIds, t);
      var w :| w in kept && kept[w].payee in {e} && kept[w].kind == kind;
      assert kept[w].payee in Group(mid, norm, k);
    }
  }

  /** A surviving payee has the same kinds of documents after both migrations as after 076 alone:
      those of its whole group. */
  lemma BothKeepSameKinds(payees: Payees, taxIds: TaxIds, norm: Normalizer, k: Id, kind: string)
    requires Mergeable(payees, taxIds) && k in PayeesAfter(payees, norm)
    ensures HasKind(TaxIdsAfterBoth(payees, taxIds, norm), {k}, kind) <==>
            HasKind(TaxIdsAfter(payees, taxIds, norm), {k}, kind)
  {
    hide TaxIdsAfter, ExactTaxIdsAfter, HasKind;
    BothKeepSamePayees(payees, norm);
    ExactTaxIdsStayUnique(payees, taxIds);
    KeeperHasGroupsKinds(payees, taxIds, norm, k, kind);
    KeeperHasGroupsKinds(PayeesAfter(payees, EXACT), ExactTaxIdsAfter(payees, taxIds), norm, k, kind);
    GroupKeepsKinds(payees, taxIds, norm, k, kind);
  }

  lemma ExactKindArrives(payees: Payees, taxIds: TaxIds, t: Id)
    requires TaxIdsResolve(payees, taxIds) && t in taxIds
    ensures HasKind(ExactTaxIdsAfter(payees, taxIds), {Keeper(payees, EXACT, taxIds[t].payee)}, taxIds[t].kind)
  {
    var p := taxIds[t].payee;
    var e := Keeper(payees, EXACT, p);
    KeeperOfGroup(payees, EXACT, p);
    OnePayeePerName(payees, EXACT);
    assert p in Group(payees, EXACT, e);
    ExactKeeperHasGroupsKinds(payees, taxIds, e, taxIds[t].kind);
  }

  /** The document 076 alone moves is still the one to move after 072: the keeper of its exact name
      has none of its kind, unless that is its own payee; and no row with the exact name of the
      payee it moves to has one, unless that is the name it is filed under itself. */
  ghost predicate WinnerSurvives(payees: Payees, taxIds: TaxIds, norm: Normalizer, t: Id)
    requires t in taxIds && taxIds[t].payee in payees
  {
    var p := taxIds[t].payee;
    var k := Keeper(payees, norm, p);
    && (p in Exactly(payees) ==> !HasKind(taxIds, {Keeper(payees, EXACT, p)}, taxIds[t].kind))
    && (k in Group(payees, EXACT, p) || !HasKind(taxIds, Group(payees, EXACT, k), taxIds[t].kind))
  }

  /** Where a document is filed after 072, and where after both. */
  lemma Filed(payees: Payees, taxIds: TaxIds, norm: Normalizer, t: Id)
    requires Mergeable(payees, taxIds) && t in taxIds
    ensures var d1, d2 := Exactly(payees), Second(payees, norm); var kept := ExactTaxIdsAfter(payees, taxIds);
            var p, e := taxIds[t].payee, Keeper(payees, EXACT, taxIds[t].payee);
            && (t in kept <==> (p in d1 ==> !HasKind(taxIds, {e}, taxIds[t].kind)))
            && (t in kept ==> kept[t] == taxIds[t].(payee := e))
            && (t in TaxIdsAfterBoth(payees, taxIds, norm) <==>
                  t in kept && (e !in d2 || IsFirstRanked(kept, d2, t)))
            && (t in TaxIdsAfterBoth(payees, taxIds, norm) ==>
                  TaxIdsAfterBoth(payees, taxIds, norm)[t] == taxIds[t].(payee := Keeper(payees, norm, p)))
  {
    var p := taxIds[t].payee;
    ExactTaxIdsLeft(payees, taxIds, t);
    FollowIsKeeper(payees, EXACT, p);
    assert p in Exactly(payees) ==>
      (IsCandidate(taxIds, Exactly(payees), t) <==> !HasKind(taxIds, {Keeper(payees, EXACT, p)}, taxIds[t].kind));
    TaxIdsLeft(PayeesAfter(payees, EXACT), ExactTaxIdsAfter(payees, taxIds), norm, t);
    MinimumOfMinima(payees, norm, p);
    FollowIsKeeper(PayeesAfter(payees, EXACT), norm, Keeper(payees, EXACT, p));
  }

  lemma FiledOnly(payees: Payees, taxIds: TaxIds, norm: Normalizer, t: Id)
    ensures t in TaxIdsAfterBoth(payees, taxIds, norm) ==> t in taxIds
  {
    ExactTaxIdsLeft(payees, taxIds, t);
    TaxIdsLeft(PayeesAfter(payees, EXACT), ExactTaxIdsAfter(payees, taxIds), norm, t);
  }

  /** Whether a final keeper has a kind of document when 076 starts. */
  lemma KeeperKindAfterExact(payees: Payees, taxIds: TaxIds, norm: Normalizer, p: Id, kind: string)
    requires Mergeable(payees, taxIds) && p in payees
    ensures var k, e := Keeper(payees, norm, p), Keeper(payees, EXACT, p);
            && k in payees
            && (HasKind(ExactTaxIdsAfter(payees, taxIds), {k}, kind) <==>
                HasKind(taxIds, Group(payees, EXACT, k), kind))
            && (e in Second(payees, norm) <==> k !in Group(payees, EXACT, p))
            && (e in Second(payees, norm) ==> Second(payees, norm)[e] == k)
  {
    var k, e := Keeper(payees, norm, p), Keeper(payees, EXACT, p);
    KeeperOfGroup(payees, norm, p);
    KeeperOfGroup(payees, EXACT, p);
    SameSurvivor(payees, norm, k);
    assert k in Group(payees, norm, p);
    OnePayeePerName(PayeesAfter(payees, EXACT), norm);
    ExactKeeperHasGroupsKinds(payees, taxIds, k, kind);
    MinimumOfMinima(payees, norm, p);
    OnePayeePerName(payees, EXACT);
    if k in Group(payees, EXACT, p) {
      assert Keeper(payees, EXACT, k) == e;
    } else {
      assert e in Group(payees, EXACT, p);
    }
  }

  lemma WinnerFiled(payees: Payees, taxIds: TaxIds, norm: Normalizer, t: Id)
    requires Mergeable(payees, taxIds)
    requires t in taxIds && IsFirstRanked(taxIds, Alone(payees, norm), t)
    ensures t in TaxIdsAfterBoth(payees, taxIds, norm) <==> WinnerSurvives(payees, taxIds, norm, t)
  {
    hide TaxIdsAfterBoth, ExactTaxIdsAfter, Mergeable;
    var p, kind, kept := taxIds[t].payee, taxIds[t].kind, ExactTaxIdsAfter(payees, taxIds);
    var k, e, d, d2 := Keeper(payees, norm, p), Keeper(payees, EXACT, p), Alone(payees, norm), Second(payees, norm);
    Filed(payees, taxIds, norm, t);
    KeeperKindAfterExact(payees, taxIds, norm, p, kind);
    assert d[p] == k && !HasKind(taxIds, {k}, kind);
    if t in kept && e in d2 && !HasKind(taxIds, Group(payees, EXACT, k), kind) {
      assert IsCandidate(kept, d2, t);
      forall u | u in kept && IsCandidate(kept, d2, u) && d2[kept[u].payee] == k && kept[u].kind == kind
        ensures !RanksBefore(kept, u, t)
      {
        LaterCandidate(payees, taxIds, norm, t, u);
      }
      assert IsFirstRanked(kept, d2, t);
    } else if t in kept && e in d2 {
      assert HasKind(kept, {k}, kind);
      assert !IsCandidate(kept, d2, t);
    }
  }

  /** Any rival after 072 was a rival before it. */
  lemma LaterCandidate(payees: Payees, taxIds: TaxIds, norm: Normalizer, t: Id, u: Id)
    requires Mergeable(payees, taxIds)
    requires t in taxIds && IsFirstRanked(taxIds, Alone(payees, norm), t)
    requires var kept, d2 := ExactTaxIdsAfter(payees, taxIds), Second(payees, norm);
             && t in kept && u in kept && IsCandidate(kept, d2, u)
             && d2[kept[u].payee] == Keeper(payees, norm, taxIds[t].payee) && kept[u].kind == taxIds[t].kind
    ensures !RanksBefore(ExactTaxIdsAfter(payees, taxIds), u, t)
  {
    var kept, d := ExactTaxIdsAfter(payees, taxIds), Alone(payees, norm);
    ExactTaxIdsLeft(payees, taxIds, u);
    Filed(payees, taxIds, norm, t);
    Filed(payees, taxIds, norm, u);
    KeeperKindAfterExact(payees, taxIds, norm, taxIds[u].payee, taxIds[u].kind);
    assert Keeper(payees, norm, taxIds[u].payee) == Keeper(payees, norm, taxIds[t].payee);
    assert taxIds[u].payee in d by {
      MergedOnce(payees, norm, taxIds[u].payee);
    }
    assert IsCandidate(taxIds, d, u);
  }

  /** A document of a merged payee that is left after both was the one to move, if all such are. */
  lemma FiledIsWinner(payees: Payees, taxIds: TaxIds, norm: Normalizer, t: Id)
    requires Mergeable(payees, taxIds)
    requires forall w :: w in taxIds && IsFirstRanked(taxIds, Alone(payees, norm), w) ==>
               WinnerSurvives(payees, taxIds, norm, w)
    requires t in TaxIdsAfterBoth(payees, taxIds, norm) && t in taxIds && taxIds[t].payee in Alone(payees, norm)
    ensures IsFirstRanked(taxIds, Alone(payees, norm), t)
  {
    var both, d := TaxIdsAfterBoth(payees, taxIds, norm), Alone(payees, norm);
    var k := Keeper(payees, norm, taxIds[t].payee);
    ExactTaxIdsStayUnique(payees, taxIds);
    TaxIdKindsStayUnique(PayeesAfter(payees, EXACT), ExactTaxIdsAfter(payees, taxIds), norm);
    Filed(payees, taxIds, norm, t);
    if x :| x in taxIds && taxIds[x].payee == k && taxIds[x].kind == taxIds[t].kind {
      KeeperSurvives(payees, norm, taxIds[t].payee);
      OwnFiled(payees, taxIds, norm, x);
      assert false;
    }
    assert IsCandidate(taxIds, d, t);
    var w := CandidateHasFirstRanked(taxIds, d, t);
    WinnerFiled(payees, taxIds, norm, w);
    Filed(payees, taxIds, norm, w);
    assert w == t;
  }

  lemma OwnFiled(payees: Payees, taxIds: TaxIds, norm: Normalizer, t: Id)
    requires Mergeable(payees, taxIds)
    requires t in taxIds && taxIds[t].payee !in Alone(payees, norm)
    ensures t in TaxIdsAfterBoth(payees, taxIds, norm)
    ensures Keeper(payees, norm, taxIds[t].payee) == taxIds[t].payee
  {
    var p := taxIds[t].payee;
    Filed(payees, taxIds, norm, t);
    MergedOnce(payees, norm, p);
    assert Keeper(payees, EXACT, p) == p;
  }

  lemma FiledAlike(payees: Payees, taxIds: TaxIds, norm: Normalizer, t: Id)
    requires Mergeable(payees, taxIds)
    ensures var two, one := TaxIdsAfterBoth(payees, taxIds, norm), TaxIdsAfter(payees, taxIds, norm);
            var d := Alone(payees, norm);
            && (t in one <==> t in taxIds && (taxIds[t].payee in d ==> IsFirstRanked(taxIds, d, t)))
            && (t in two ==> t in taxIds)
            && (t in one && t in two ==> one[t] == two[t])
  {
    hide TaxIdsAfterBoth, TaxIdsAfter, IsFirstRanked;
    TaxIdsLeft(payees, taxIds, norm, t);
    FiledOnly(payees, taxIds, norm, t);
    if t in taxIds {
      Filed(payees, taxIds, norm, t);
      FollowIsKeeper(payees, norm, taxIds[t].payee);
    }
  }

  /** The documents left after both migrations are those left after 076 alone exactly when every
      document that 076 alone would move survives 072 as the one to move. */
  lemma BothFileTaxIdsAlikeExactly(payees: Payees, taxIds: TaxIds, norm: Normalizer)
    requires Mergeable(payees, taxIds)
    ensures TaxIdsAfterBoth(payees, taxIds, norm) == TaxIdsAfter(payees, taxIds, norm) <==>
            forall t :: t in taxIds && IsFirstRanked(taxIds, Alone(payees, norm), t) ==>
              WinnerSurvives(payees, taxIds, norm, t)
  {
    hide TaxIdsAfterBoth, TaxIdsAfter, IsFirstRanked, WinnerSurvives, Alone;
    var two, one, d := TaxIdsAfterBoth(payees, taxIds, norm), TaxIdsAfter(payees, taxIds, norm), Alone(payees, norm);
    forall t
      ensures t in one <==> t in taxIds && (taxIds[t].payee in d ==> IsFirstRanked(taxIds, d, t))
      ensures t in two ==> t in taxIds
      ensures t in one && t in two ==> one[t] == two[t]
    {
      FiledAlike(payees, taxIds, norm, t);
    }
    if two == one {
      forall t | t in taxIds && IsFirstRanked(taxIds, d, t) ensures WinnerSurvives(payees, taxIds, norm, t) {
        WinnerFiled(payees, taxIds, norm, t);
      }
    }
    if forall w :: w in taxIds && IsFirstRanked(taxIds, d, w) ==> WinnerSurvives(payees, taxIds, norm, w) {
      forall t ensures t in two <==> t in one {
        SameDocument(payees, taxIds, norm, t);
      }
      assert two == one;
    }
  }

  lemma SameDocument(payees: Payees, taxIds: TaxIds, norm: Normalizer, t: Id)
    requires Mergeable(payees, taxIds)
    requires forall w :: w in taxIds && IsFirstRanked(taxIds, Alone(payees, norm), w) ==>
               WinnerSurvives(payees, taxIds, norm, w)
    ensures t in TaxIdsAfterBoth(payees, taxIds, norm) <==> t in TaxIdsAfter(payees, taxIds, norm)
  {
    hide TaxIdsAfterBoth, TaxIdsAfter, IsFirstRanked, WinnerSurvives, Alone;
    FiledAlike(payees, taxIds, norm, t);
    if t in taxIds && taxIds[t].payee !in Alone(payees, norm) {
      OwnFiled(payees, taxIds, norm, t);
    } else if t in taxIds {
      if IsFirstRanked(taxIds, Alone(payees, norm), t) {
        WinnerFiled(payees, taxIds, norm, t);
      } else if t in TaxIdsAfterBoth(payees, taxIds, norm) {
        FiledIsWinner(payees, taxIds, norm, t);
      }
    }
  }

  /** Names that differ only in case, folded to one. */
  const FOLDED: Normalizer := (name: string) => if name == "acme" then "ACME" else name
  const VARIANTS: Payees :=
    map[1 := Payee(7, 4, "ACME", 0), 2 := Payee(7, 5, "acme", 1), 3 := Payee(7, 6, "acme", 2)]
  const DOCUMENTS: TaxIds := map[12 := TaxId(2, "cnpj", "newer", 5), 13 := TaxId(3, "cnpj", "older", 1)]

  lemma ExactVariants()
    ensures Exactly(VARIANTS) == map[3 := 2]
  {
    KeeperIsUnique(VARIANTS, EXACT, 1, 1);
    KeeperIsUnique(VARIANTS, EXACT, 2, 2);
    KeeperIsUnique(VARIANTS, EXACT, 3, 2);
  }

  lemma FoldedVariants()
    ensures Alone(VARIANTS, FOLDED) == map[2 := 1, 3 := 1]
  {
    KeeperIsUnique(VARIANTS, FOLDED, 1, 1);
    KeeperIsUnique(VARIANTS, FOLDED, 2, 1);
    KeeperIsUnique(VARIANTS, FOLDED, 3, 1);
  }

  lemma OlderDocumentWins()
    ensures IsFirstRanked(DOCUMENTS, map[2 := 1, 3 := 1], 13)
    ensures TaxIdsResolve(VARIANTS, DOCUMENTS) && KindsUnique(DOCUMENTS)
    ensures !BringSameNewKind(DOCUMENTS, map[3 := 2])
  {
    assert IsCandidate(DOCUMENTS, map[2 := 1, 3 := 1], 13);
  }

  /** Two variants of a name, the younger row of the second holding the older document: 072 drops
      that document, where 076 alone would move it to the keeper. */
  lemma TaxIdsDifferExample()
    ensures Mergeable(VARIANTS, DOCUMENTS)
    ensures TaxIdsAfterBoth(VARIANTS, DOCUMENTS, FOLDED) != TaxIdsAfter(VARIANTS, DOCUMENTS, FOLDED)
  {
    hide TaxIdsAfterBoth, TaxIdsAfter, IsFirstRanked, KindsUnique, BringSameNewKind, VARIANTS;
    ExactVariants();
    FoldedVariants();
    OlderDocumentWins();
    assert !WinnerSurvives(VARIANTS, DOCUMENTS, FOLDED, 13) by {
      FollowIsKeeper(VARIANTS, EXACT, 3);
      assert DOCUMENTS[12].payee in {2};
    }
    BothFileTaxIdsAlikeExactly(VARIANTS, DOCUMENTS, FOLDED);
  }

  // ---------- The run of both ----------

  /** 072, then 076: where the first does not raise, payees and transactions end as 076 alone would
      leave them, mappings, tax ids and rules as compared above, and the tables stay consistent. */
  method UpgradeBoth(store: PayeeStore, norm: Normalizer) returns (ok: bool)
    requires Consistent(store.payees, store.taxIds, store.transactions, store.mappings)
    modifies store
    ensures ok <==> Mergeable(old(store.payees), old(store.taxIds))
    ensures !ok ==> unchanged(store)
    ensures Consistent(store.payees, store.taxIds, store.transactions, store.mappings)
    ensures ok ==> NamesUnique(store.payees, norm)
    ensures ok ==> store.payees == PayeesAfter(old(store.payees), norm)
    ensures ok ==> store.transactions == TransactionsAfter(old(store.payees), old(store.transactions), norm)
    ensures ok ==> store.taxIds == TaxIdsAfterBoth(old(store.payees), old(store.taxIds), norm)
    ensures ok ==> store.mappings == MappingsAfterBoth(old(store.payees), old(store.mappings), norm)
    ensures ok ==> store.rules == RulesAfter(PayeesAfter(old(store.payees), EXACT), old(store.rules), norm)
  {
    hide TaxIdsAfter, TransactionsAfter, MappingsAfter, RulesAfter, ExactTaxIdsAfter, ExactMappingsAfter;
    hide PayeesAfter, BringSameNewKind, Consistent, NamesUnique;
    ghost var payees, taxIds, transactions, mappings := store.payees, store.taxIds, store.transactions, store.mappings;
    ConsistentParts(payees, taxIds, transactions, mappings);
    ok := Upgrade(store);
    if ok {
      ExactMergeStaysConsistent(payees, taxIds, transactions, mappings);
      store.Upgrade(norm);
      BothKeepSamePayees(payees, norm);
      BothSendTransactionsAlike(payees, transactions, norm);
    }
  }

  lemma ConsistentParts(payees: Payees, taxIds: TaxIds, transactions: Transactions, mappings: Mappings)
    requires Consistent(payees, taxIds, transactions, mappings)
    ensures TransactionsResolve(payees, transactions) && TaxIdsResolve(payees, taxIds)
    ensures MappingsResolve(payees, mappings) && KindsUnique(taxIds)
  {
  }
}
