/** How migration 076 rewrites the payee ids inside transaction rules. */
module PayeeRules {
  import opened PayeeTables

  /** A JSON value: the text of a payee id, or anything else. */
  datatype Value = Ref(id: Id) | Other(text: string)

  datatype Action = Action(op: string, value: Value)

  /** A node of a rule's condition list. `Null` is what an empty group is rewritten to. */
  datatype Node =
    | Leaf(field: string, value: Value)
    | Nested(op: string, conditions: seq<Node>)
    | Null

  datatype Rule = Rule(actions: seq<Action>, conditions: seq<Node>)

  type Rules = map<Id, Rule>

  // ---------- Actions: one simultaneous rewrite ----------

  function RewriteAction(a: Action, d: map<Id, Id>): Action {
    if a.op == "set_payee" && a.value.Ref? && a.value.id in d then a.(value := Ref(d[a.value.id])) else a
  }

  function RewriteActions(actions: seq<Action>, d: map<Id, Id>): seq<Action> {
    seq(|actions|, i requires 0 <= i < |actions| => RewriteAction(actions[i], d))
  }

  // ---------- Conditions: one duplicate at a time ----------

  /** A leaf testing one payee. */
  predicate Names(n: Node, id: Id) {
    n == Leaf("payee_id", Ref(id))
  }

  /** The guard of the statement: some leaf, at any depth, tests this payee. */
  predicate Occurs(nodes: seq<Node>, id: Id) {
    exists i :: 0 <= i < |nodes| && OccursIn(nodes[i], id)
  }

  predicate OccursIn(n: Node, id: Id) {
    Names(n, id) || (n.Nested? && exists i :: 0 <= i < |n.conditions| && OccursIn(n.conditions[i], id))
  }

  function RewriteLeaf(n: Node, source: Id, target: Id): Node {
    if Names(n, source) then Leaf("payee_id", Ref(target)) else n
  }

  /** A group's own leaves are rewritten; aggregating over no rows makes an empty group null. */
  function RewriteNode(n: Node, source: Id, target: Id): Node {
    if n.Nested? then
      if n.conditions == [] then Null
      else n.(conditions := RewriteLeaves(n.conditions, source, target))
    else RewriteLeaf(n, source, target)
  }

  function RewriteLeaves(nodes: seq<Node>, source: Id, target: Id): seq<Node> {
    seq(|nodes|, i requires 0 <= i < |nodes| => RewriteLeaf(nodes[i], source, target))
  }

  function RewriteNodes(nodes: seq<Node>, source: Id, target: Id): seq<Node> {
    seq(|nodes|, i requires 0 <= i < |nodes| => RewriteNode(nodes[i], source, target))
  }

  /** One iteration of the loop on one rule. */
  function RewriteConditions(nodes: seq<Node>, source: Id, target: Id): seq<Node> {
    if Occurs(nodes, source) then RewriteNodes(nodes, source, target) else nodes
  }

  // ---------- What any order of the loop amounts to ----------

  predicate OccursAny(nodes: seq<Node>, ids: set<Id>) {
    exists id :: id in ids && Occurs(nodes, id)
  }

  function LeafAfter(n: Node, d: map<Id, Id>): Node {
    if n.Leaf? && n.field == "payee_id" && n.value.Ref? && n.value.id in d
    then Leaf("payee_id", Ref(d[n.value.id])) else n
  }

  function NodeAfter(n: Node, d: map<Id, Id>): Node {
    if n.Nested? then
      if n.conditions == [] then Null
      else
        n.(conditions := seq(|n.conditions|, i requires 0 <= i < |n.conditions| => LeafAfter(n.conditions[i], d)))
    else LeafAfter(n, d)
  }

  /** Every duplicate replaced in one step, in the two levels the statement reaches. */
  function ConditionsAfter(nodes: seq<Node>, d: map<Id, Id>): seq<Node> {
    if OccursAny(nodes, d.Keys) then seq(|nodes|, i requires 0 <= i < |nodes| => NodeAfter(nodes[i], d))
    else nodes
  }

  /** Targets are survivors: no target is a duplicate that is still to be replaced. */
  ghost predicate OneHop(d: map<Id, Id>) {
    forall s :: s in d ==> d[s] !in d
  }

  lemma LeafStep(n: Node, d: map<Id, Id>, source: Id, target: Id)
    requires source !in d && forall s :: s in d ==> d[s] != source
    ensures RewriteLeaf(LeafAfter(n, d), source, target) == LeafAfter(n, d[source := target])
  {
  }

  lemma NodeStep(n: Node, d: map<Id, Id>, source: Id, target: Id)
    requires source !in d && forall s :: s in d ==> d[s] != source
    ensures RewriteNode(NodeAfter(n, d), source, target) == NodeAfter(n, d[source := target])
  {
    if n.Nested? && n.conditions != [] {
      forall i | 0 <= i < |n.conditions|
        ensures RewriteLeaf(LeafAfter(n.conditions[i], d), source, target)
             == LeafAfter(n.conditions[i], d[source := target])
      {
        LeafStep(n.conditions[i], d, source, target);
      }
      assert RewriteNode(NodeAfter(n, d), source, target).conditions == NodeAfter(n, d[source := target]).conditions;
    } else if !n.Nested? {
      LeafStep(n, d, source, target);
    }
  }

  /** A node nothing occurs in, and that is not an empty group, is left as it is. */
  lemma UntouchedNode(n: Node, d: map<Id, Id>)
    requires !(n.Nested? && n.conditions == [])
    requires forall s :: s in d ==> !OccursIn(n, s)
    ensures NodeAfter(n, d) == n
  {
    if n.Nested? {
      forall i | 0 <= i < |n.conditions| ensures LeafAfter(n.conditions[i], d) == n.conditions[i] {
        var c := n.conditions[i];
        if c.Leaf? && c.value.Ref? && c.value.id in d {
          assert !OccursIn(n, c.value.id);
        }
      }
      assert NodeAfter(n, d).conditions == n.conditions;
    } else {
      assert n.Leaf? && n.value.Ref? ==> (OccursIn(n, n.value.id) <==> n.field == "payee_id");
    }
  }

  lemma UntouchedRewrite(n: Node, source: Id, target: Id)
    requires !(n.Nested? && n.conditions == []) && !OccursIn(n, source)
    ensures RewriteNode(n, source, target) == n
  {
    if n.Nested? {
      forall i | 0 <= i < |n.conditions| ensures RewriteLeaf(n.conditions[i], source, target) == n.conditions[i] {
        assert !OccursIn(n.conditions[i], source);
      }
      assert RewriteNode(n, source, target).conditions == n.conditions;
    }
  }

  /** A node no earlier duplicate occurs in meets its first rewrite unchanged. */
  lemma FirstRewrite(n: Node, d: map<Id, Id>, source: Id, target: Id)
    requires source !in d && forall s :: s in d ==> d[s] != source
    requires forall s :: s in d ==> !OccursIn(n, s)
    ensures RewriteNode(n, source, target) == NodeAfter(n, d[source := target])
  {
    if !(n.Nested? && n.conditions == []) {
      UntouchedNode(n, d);
      NodeStep(n, d, source, target);
    }
  }

  /** One more iteration of the loop adds one more duplicate to the simultaneous rewrite. */
  lemma LoopStep(nodes: seq<Node>, d: map<Id, Id>, source: Id, target: Id)
    requires source !in d && forall s :: s in d ==> d[s] != source
    ensures RewriteConditions(ConditionsAfter(nodes, d), source, target) == ConditionsAfter(nodes, d[source := target])
  {
    var now, next := ConditionsAfter(nodes, d), d[source := target];
    if OccursAny(nodes, d.Keys) {
      assert OccursAny(nodes, next.Keys) by {
        var id :| id in d.Keys && Occurs(nodes, id);
        assert id in next.Keys;
      }
      forall i | 0 <= i < |nodes|
        ensures RewriteNode(now[i], source, target) == NodeAfter(nodes[i], next)
        ensures !Occurs(now, source) ==> now[i] == NodeAfter(nodes[i], next)
      {
        NodeStep(nodes[i], d, source, target);
        if !Occurs(now, source) {
          assert !OccursIn(now[i], source);
          UntouchedRewrite(now[i], source, target);
        }
      }
      assert RewriteConditions(now, source, target) == ConditionsAfter(nodes, next);
    } else if Occurs(nodes, source) {
      assert source in next.Keys && OccursAny(nodes, next.Keys);
      forall i | 0 <= i < |nodes| ensures RewriteNode(nodes[i], source, target) == NodeAfter(nodes[i], next) {
        forall s | s in d ensures !OccursIn(nodes[i], s) {
          assert !Occurs(nodes, s);
        }
        FirstRewrite(nodes[i], d, source, target);
      }
      assert RewriteConditions(now, source, target) == ConditionsAfter(nodes, next);
    } else {
      assert !OccursAny(nodes, next.Keys) by {
        forall id | id in next.Keys ensures !Occurs(nodes, id) {
          assert id == source || id in d.Keys;
        }
      }
    }
  }

  /** The loop run over `order`, one duplicate after another. */
  function RunLoop(nodes: seq<Node>, d: map<Id, Id>, order: seq<Id>): seq<Node>
    requires forall s :: s in order ==> s in d
  {
    if order == [] then nodes
    else
      var last := |order| - 1;
      RewriteConditions(RunLoop(nodes, d, order[..last]), order[last], d[order[last]])
  }

  function Restrict(d: map<Id, Id>, keys: set<Id>): map<Id, Id> {
    map s | s in d && s in keys :: d[s]
  }

  lemma {:induction false} LoopIsSimultaneous(nodes: seq<Node>, d: map<Id, Id>, order: seq<Id>)
    requires OneHop(d)
    requires forall s :: s in order ==> s in d
    requires forall i, j :: 0 <= i < j < |order| ==> order[i] != order[j]
    ensures RunLoop(nodes, d, order) == ConditionsAfter(nodes, Restrict(d, set s | s in order))
  {
    if order == [] {
      assert Restrict(d, set s | s in order) == map[];
    } else {
      var before, source := order[..|order| - 1], order[|order| - 1];
      LoopIsSimultaneous(nodes, d, before);
      var done := Restrict(d, set s | s in before);
      LoopStep(nodes, done, source, d[source]);
      RestrictAppend(d, before, source);
      assert order == before + [source];
    }
  }

  lemma RestrictAppend(d: map<Id, Id>, before: seq<Id>, source: Id)
    requires source in d
    ensures Restrict(d, set s | s in before + [source]) == Restrict(d, set s | s in before)[source := d[source]]
  {
  }

  /** Whatever order the loop takes the duplicates in, the result is the simultaneous rewrite. */
  lemma LoopOrderIsIrrelevant(nodes: seq<Node>, d: map<Id, Id>, order: seq<Id>)
    requires OneHop(d)
    requires forall s :: s in order <==> s in d
    requires forall i, j :: 0 <= i < j < |order| ==> order[i] != order[j]
    ensures RunLoop(nodes, d, order) == ConditionsAfter(nodes, d)
  {
    LoopIsSimultaneous(nodes, d, order);
    assert Restrict(d, set s | s in order) == d;
  }

  // ---------- Against replacing every reference, at any depth ----------

  function ReplaceIn(n: Node, d: map<Id, Id>): Node {
    if n.Nested? then
      n.(conditions := seq(|n.conditions|, i requires 0 <= i < |n.conditions| => ReplaceIn(n.conditions[i], d)))
    else LeafAfter(n, d)
  }

  function ReplaceEverywhere(nodes: seq<Node>, d: map<Id, Id>): seq<Node> {
    seq(|nodes|, i requires 0 <= i < |nodes| => ReplaceIn(nodes[i], d))
  }

  predicate OccursAnyIn(n: Node, ids: set<Id>) {
    exists id :: id in ids && OccursIn(n, id)
  }

  /** Replacing changes a node exactly when one of the replaced ids occurs in it. */
  lemma {:induction false} ReplaceChanges(n: Node, d: map<Id, Id>)
    requires OneHop(d)
    ensures ReplaceIn(n, d) == n <==> !OccursAnyIn(n, d.Keys)
  {
    if n.Nested? {
      forall i | 0 <= i < |n.conditions|
        ensures ReplaceIn(n.conditions[i], d) == n.conditions[i] <==> !OccursAnyIn(n.conditions[i], d.Keys)
      {
        ReplaceChanges(n.conditions[i], d);
      }
      if OccursAnyIn(n, d.Keys) {
        var id :| id in d.Keys && OccursIn(n, id);
        var i :| 0 <= i < |n.conditions| && OccursIn(n.conditions[i], id);
        assert OccursAnyIn(n.conditions[i], d.Keys);
        assert ReplaceIn(n, d).conditions[i] != n.conditions[i];
      } else {
        forall i | 0 <= i < |n.conditions| ensures ReplaceIn(n.conditions[i], d) == n.conditions[i] {
          forall id | id in d ensures !OccursIn(n.conditions[i], id) {
            assert OccursIn(n.conditions[i], id) ==> OccursIn(n, id);
          }
        }
        assert ReplaceIn(n, d).conditions == n.conditions;
      }
    } else if n.Leaf? && n.field == "payee_id" && n.value.Ref? && n.value.id in d {
      assert OccursIn(n, n.value.id);
    }
  }

  /** A merged payee tested inside a group inside a group. */
  predicate DeepIn(n: Node, ids: set<Id>) {
    n.Nested? && exists j :: 0 <= j < |n.conditions| && n.conditions[j].Nested? && OccursAnyIn(n.conditions[j], ids)
  }

  predicate IsEmptyGroup(n: Node) {
    n.Nested? && n.conditions == []
  }

  lemma NodeMatchesReplace(n: Node, d: map<Id, Id>)
    requires OneHop(d)
    ensures NodeAfter(n, d) == ReplaceIn(n, d) <==> !IsEmptyGroup(n) && !DeepIn(n, d.Keys)
  {
    if n.Nested? && n.conditions != [] {
      var after, ideal := NodeAfter(n, d).conditions, ReplaceIn(n, d).conditions;
      forall i | 0 <= i < |n.conditions|
        ensures after[i] == ideal[i] <==> !(n.conditions[i].Nested? && OccursAnyIn(n.conditions[i], d.Keys))
      {
        ReplaceChanges(n.conditions[i], d);
      }
      if !DeepIn(n, d.Keys) {
        assert after == ideal;
      } else {
        var j :| 0 <= j < |n.conditions| && n.conditions[j].Nested? && OccursAnyIn(n.conditions[j], d.Keys);
        assert after[j] != ideal[j];
      }
    }
  }

  /** Exactly which rules end up with every merged payee replaced by its keeper and nothing
      else changed: no merged payee sits deeper than one group, and if the rule tests a merged
      payee at all, it has no empty group for the statement to turn into null. */
  lemma RewriteIsCompleteExactly(nodes: seq<Node>, d: map<Id, Id>)
    requires OneHop(d)
    ensures ConditionsAfter(nodes, d) == ReplaceEverywhere(nodes, d) <==>
            && (forall i :: 0 <= i < |nodes| ==> !DeepIn(nodes[i], d.Keys))
            && (OccursAny(nodes, d.Keys) ==> forall i :: 0 <= i < |nodes| ==> !IsEmptyGroup(nodes[i]))
  {
    var after, ideal := ConditionsAfter(nodes, d), ReplaceEverywhere(nodes, d);
    if OccursAny(nodes, d.Keys) {
      forall i | 0 <= i < |nodes|
        ensures after[i] == ideal[i] <==> !IsEmptyGroup(nodes[i]) && !DeepIn(nodes[i], d.Keys)
      {
        NodeMatchesReplace(nodes[i], d);
      }
      if forall i :: 0 <= i < |nodes| ==> !IsEmptyGroup(nodes[i]) && !DeepIn(nodes[i], d.Keys) {
        assert after == ideal;
      }
    } else {
      forall i | 0 <= i < |nodes| ensures after[i] == ideal[i] && !DeepIn(nodes[i], d.Keys) {
        NothingOccursIn(nodes, d, i);
        ReplaceChanges(nodes[i], d);
        NothingDeep(nodes[i], d.Keys);
      }
      assert after == ideal;
    }
  }

  lemma NothingOccursIn(nodes: seq<Node>, d: map<Id, Id>, i: int)
    requires 0 <= i < |nodes| && !OccursAny(nodes, d.Keys)
    ensures !OccursAnyIn(nodes[i], d.Keys)
  {
    if id :| id in d.Keys && OccursIn(nodes[i], id) {
      assert Occurs(nodes, id);
    }
  }

  lemma NothingDeep(n: Node, ids: set<Id>)
    requires !OccursAnyIn(n, ids)
    ensures !DeepIn(n, ids)
  {
    if n.Nested? {
      forall j | 0 <= j < |n.conditions| ensures !OccursAnyIn(n.conditions[j], ids) {
        forall id | id in ids ensures !OccursIn(n.conditions[j], id) {
          assert OccursIn(n.conditions[j], id) ==> OccursIn(n, id);
        }
      }
    }
  }

  // ---------- Rules the application itself can save ----------

  /** What the rule schema accepts: leaves, and non-empty groups of leaves. */
  predicate Savable(nodes: seq<Node>) {
    forall i :: 0 <= i < |nodes| ==> SavableNode(nodes[i])
  }

  predicate SavableNode(n: Node) {
    n.Leaf? || (n.Nested? && n.conditions != [] && forall j :: 0 <= j < |n.conditions| ==> n.conditions[j].Leaf?)
  }

  /** A rule saved through the application has every merged payee replaced by its keeper, and can
      still be saved. */
  lemma SavableRulesAreRewritten(nodes: seq<Node>, d: map<Id, Id>)
    requires OneHop(d) && Savable(nodes)
    ensures ConditionsAfter(nodes, d) == ReplaceEverywhere(nodes, d)
    ensures !OccursAny(ConditionsAfter(nodes, d), d.Keys)
    ensures Savable(ConditionsAfter(nodes, d))
  {
    forall i | 0 <= i < |nodes| ensures !DeepIn(nodes[i], d.Keys) && !IsEmptyGroup(nodes[i]) {
      assert SavableNode(nodes[i]);
    }
    RewriteIsCompleteExactly(nodes, d);
    TestedAfterwards(nodes, d);
    forall i | 0 <= i < |nodes| ensures SavableNode(ConditionsAfter(nodes, d)[i]) {
      assert SavableNode(nodes[i]);
    }
  }

  /** What the schema takes and what it refuses: groups hold at least one condition and no group. */
  lemma SavableExamples()
    ensures Savable([]) && Savable([Leaf("payee_id", Ref(2)), Nested("or", [Leaf("type", Other("debit"))])])
    ensures !Savable([Nested("or", [])]) && !Savable([Null]) && !Savable([Nested("or", [Null])])
    ensures !Savable([Nested("or", [Leaf("type", Other("debit")), Nested("and", [Leaf("payee_id", Ref(2))])])])
  {
    var leaf := Leaf("type", Other("debit"));
    var deep := Nested("or", [leaf, Nested("and", [Leaf("payee_id", Ref(2))])]);
    assert !SavableNode(Nested("or", [])) && !SavableNode(Null);
    assert !SavableNode(Nested("or", [Null])) by {
      assert !Nested("or", [Null]).conditions[0].Leaf?;
    }
    assert !SavableNode(deep) by {
      assert !deep.conditions[1].Leaf?;
    }
    assert SavableNode(Nested("or", [leaf]));
    assert !SavableNode([Nested("or", [])][0]) && !SavableNode([Null][0]) && !SavableNode([Nested("or", [Null])][0]);
    assert !SavableNode([deep][0]);
  }

  /** What the statement does to rows the schema would refuse today: a merged payee inside a group
      inside a group stays, and a rewritten rule loses its empty group. */
  lemma UnsavableRulesExample()
    ensures var d := map[2 := 1]; var deep := Nested("or", [Nested("and", [Leaf("payee_id", Ref(2))])]);
            ConditionsAfter([deep], d) == [deep]
    ensures var d := map[2 := 1]; var test := Leaf("payee_id", Ref(2));
            ConditionsAfter([test, Nested("or", [])], d) == [Leaf("payee_id", Ref(1)), Null]
  {
    var d: map<Id, Id> := map[2 := 1];
    var inner := Nested("and", [Leaf("payee_id", Ref(2))]);
    var deep := Nested("or", [inner]);
    assert NodeAfter(deep, d).conditions == [inner];
    var nodes := [Leaf("payee_id", Ref(2)), Nested("or", [])];
    assert OccursIn(nodes[0], 2) && 2 in d.Keys;
    assert Occurs(nodes, 2);
  }

  // ---------- Which payees are tested afterwards ----------

  predicate AnyDeep(nodes: seq<Node>, ids: set<Id>) {
    exists i :: 0 <= i < |nodes| && DeepIn(nodes[i], ids)
  }

  /** An id that is neither merged nor merged into is tested exactly where it was. */
  lemma BystanderInLeaf(n: Node, d: map<Id, Id>, id: Id)
    requires id !in d && forall s :: s in d ==> d[s] != id
    ensures OccursIn(LeafAfter(n, d), id) <==> OccursIn(n, id)
  {
  }

  lemma BystanderInNode(n: Node, d: map<Id, Id>, id: Id)
    requires id !in d && forall s :: s in d ==> d[s] != id
    ensures OccursIn(NodeAfter(n, d), id) <==> OccursIn(n, id)
  {
    if n.Nested? && n.conditions != [] {
      var after := NodeAfter(n, d).conditions;
      forall j | 0 <= j < |n.conditions| ensures OccursIn(after[j], id) <==> OccursIn(n.conditions[j], id) {
        BystanderInLeaf(n.conditions[j], d, id);
      }
      if OccursIn(n, id) {
        var j :| 0 <= j < |n.conditions| && OccursIn(n.conditions[j], id);
        assert OccursIn(after[j], id);
      }
    } else if !n.Nested? {
      BystanderInLeaf(n, d, id);
    }
  }

  lemma BystanderStays(nodes: seq<Node>, d: map<Id, Id>, id: Id)
    requires id !in d && forall s :: s in d ==> d[s] != id
    ensures Occurs(ConditionsAfter(nodes, d), id) <==> Occurs(nodes, id)
  {
    var after := ConditionsAfter(nodes, d);
    forall i | 0 <= i < |nodes| ensures OccursIn(after[i], id) <==> OccursIn(nodes[i], id) {
      BystanderInNode(nodes[i], d, id);
    }
    if Occurs(nodes, id) {
      var i :| 0 <= i < |nodes| && OccursIn(nodes[i], id);
      assert OccursIn(after[i], id);
    }
  }

  /** After its rewrite a node tests a merged payee exactly when one sat deeper than a group. */
  lemma RewrittenNode(n: Node, d: map<Id, Id>)
    requires OneHop(d)
    ensures OccursAnyIn(NodeAfter(n, d), d.Keys) <==> DeepIn(n, d.Keys)
  {
    if n.Nested? && n.conditions != [] {
      var after := NodeAfter(n, d);
      forall j | 0 <= j < |n.conditions|
        ensures OccursAnyIn(after.conditions[j], d.Keys) <==>
                n.conditions[j].Nested? && OccursAnyIn(n.conditions[j], d.Keys)
      {
        assert after.conditions[j] == LeafAfter(n.conditions[j], d);
      }
      if id :| id in d.Keys && OccursIn(after, id) {
        var j :| 0 <= j < |after.conditions| && OccursIn(after.conditions[j], id);
        assert OccursAnyIn(after.conditions[j], d.Keys);
      }
      if DeepIn(n, d.Keys) {
        var j :| 0 <= j < |n.conditions| && n.conditions[j].Nested? && OccursAnyIn(n.conditions[j], d.Keys);
        var id :| id in d.Keys && OccursIn(after.conditions[j], id);
        assert OccursIn(after, id);
      }
    }
  }

  lemma OccursAnyByNode(nodes: seq<Node>, ids: set<Id>)
    ensures OccursAny(nodes, ids) <==> exists i :: 0 <= i < |nodes| && OccursAnyIn(nodes[i], ids)
  {
    if OccursAny(nodes, ids) {
      var id :| id in ids && Occurs(nodes, id);
      var i :| 0 <= i < |nodes| && OccursIn(nodes[i], id);
      assert OccursAnyIn(nodes[i], ids);
    }
    if i :| 0 <= i < |nodes| && OccursAnyIn(nodes[i], ids) {
      var id :| id in ids && OccursIn(nodes[i], id);
      assert Occurs(nodes, id);
    }
  }

  /** A rule still tests a merged payee afterwards exactly when one sat deeper than one group. */
  lemma TestedAfterwards(nodes: seq<Node>, d: map<Id, Id>)
    requires OneHop(d)
    ensures OccursAny(ConditionsAfter(nodes, d), d.Keys) <==> AnyDeep(nodes, d.Keys)
  {
    var after := ConditionsAfter(nodes, d);
    OccursAnyByNode(after, d.Keys);
    if OccursAny(nodes, d.Keys) {
      forall i | 0 <= i < |nodes| ensures OccursAnyIn(after[i], d.Keys) <==> DeepIn(nodes[i], d.Keys) {
        RewrittenNode(nodes[i], d);
      }
      if AnyDeep(nodes, d.Keys) {
        var i :| 0 <= i < |nodes| && DeepIn(nodes[i], d.Keys);
        assert OccursAnyIn(after[i], d.Keys);
      }
    } else {
      forall i | 0 <= i < |nodes| ensures !DeepIn(nodes[i], d.Keys) {
        NothingOccursIn(nodes, d, i);
        NothingDeep(nodes[i], d.Keys);
      }
    }
  }

  // ---------- Two tables, one part of the other ----------

  /** A leaf of `ids` within the two levels the statement rewrites. */
  predicate LeafNames(n: Node, ids: set<Id>) {
    n.Leaf? && n.field == "payee_id" && n.value.Ref? && n.value.id in ids
  }

  predicate ShallowIn(n: Node, ids: set<Id>) {
    LeafNames(n, ids) || (n.Nested? && exists j :: 0 <= j < |n.conditions| && LeafNames(n.conditions[j], ids))
  }

  predicate AnyShallow(nodes: seq<Node>, ids: set<Id>) {
    exists i :: 0 <= i < |nodes| && ShallowIn(nodes[i], ids)
  }

  predicate AnyEmptyGroup(nodes: seq<Node>) {
    exists i :: 0 <= i < |nodes| && IsEmptyGroup(nodes[i])
  }

  /** `part` holds some of the entries of `d`. */
  ghost predicate PartOf(part: map<Id, Id>, d: map<Id, Id>) {
    forall s :: s in part ==> s in d && part[s] == d[s]
  }

  lemma NodeUnderPart(n: Node, part: map<Id, Id>, d: map<Id, Id>)
    requires OneHop(d) && PartOf(part, d)
    ensures NodeAfter(n, part) == NodeAfter(n, d) <==> !ShallowIn(n, d.Keys - part.Keys)
  {
    if n.Nested? && n.conditions != [] {
      var few, all := NodeAfter(n, part).conditions, NodeAfter(n, d).conditions;
      assert forall j :: 0 <= j < |n.conditions| ==>
        (few[j] == all[j] <==> !LeafNames(n.conditions[j], d.Keys - part.Keys));
      if !ShallowIn(n, d.Keys - part.Keys) {
        assert few == all;
      }
    }
  }

  lemma NodeKept(n: Node, d: map<Id, Id>)
    requires OneHop(d)
    ensures NodeAfter(n, d) == n <==> !IsEmptyGroup(n) && !ShallowIn(n, d.Keys)
  {
    if n.Nested? && n.conditions != [] {
      var after := NodeAfter(n, d).conditions;
      assert forall j :: 0 <= j < |n.conditions| ==>
        (after[j] == n.conditions[j] <==> !LeafNames(n.conditions[j], d.Keys));
      if !ShallowIn(n, d.Keys) {
        assert after == n.conditions;
      }
    }
  }

  lemma ShallowOccurs(n: Node, ids: set<Id>)
    requires ShallowIn(n, ids)
    ensures OccursAnyIn(n, ids)
  {
    if LeafNames(n, ids) {
      assert OccursIn(n, n.value.id);
    } else {
      var j :| 0 <= j < |n.conditions| && LeafNames(n.conditions[j], ids);
      assert OccursIn(n.conditions[j], n.conditions[j].value.id);
      assert OccursIn(n, n.conditions[j].value.id);
    }
  }

  /** Exactly when leaving `missing` entries out of the table makes no difference to a rule: none
      is tested within reach of the statement, and none makes the guard hold on its own for a rule
      with an empty group. */
  predicate SameWithout(nodes: seq<Node>, missing: set<Id>, part: set<Id>) {
    && !AnyShallow(nodes, missing)
    && (OccursAny(nodes, missing) && AnyEmptyGroup(nodes) ==> OccursAny(nodes, part))
  }

  lemma OccursAnyOfUnion(nodes: seq<Node>, a: set<Id>, b: set<Id>)
    ensures OccursAny(nodes, a + b) <==> OccursAny(nodes, a) || OccursAny(nodes, b)
  {
    if OccursAny(nodes, a) {
      var id :| id in a && Occurs(nodes, id);
      assert id in a + b;
    }
    if OccursAny(nodes, b) {
      var id :| id in b && Occurs(nodes, id);
      assert id in a + b;
    }
  }

  lemma SameUnderPartExactly(nodes: seq<Node>, part: map<Id, Id>, d: map<Id, Id>)
    requires OneHop(d) && PartOf(part, d)
    ensures ConditionsAfter(nodes, part) == ConditionsAfter(nodes, d) <==>
            SameWithout(nodes, d.Keys - part.Keys, part.Keys)
  {
    var missing := d.Keys - part.Keys;
    var few, all := ConditionsAfter(nodes, part), ConditionsAfter(nodes, d);
    assert d.Keys == part.Keys + missing;
    OccursAnyOfUnion(nodes, part.Keys, missing);
    if OccursAny(nodes, part.Keys) {
      forall i | 0 <= i < |nodes| ensures few[i] == all[i] <==> !ShallowIn(nodes[i], missing) {
        NodeUnderPart(nodes[i], part, d);
      }
    } else if OccursAny(nodes, missing) {
      OccursAnyByNode(nodes, part.Keys);
      forall i | 0 <= i < |nodes|
        ensures few[i] == all[i] <==> !IsEmptyGroup(nodes[i]) && !ShallowIn(nodes[i], missing)
      {
        NodeKept(nodes[i], d);
        NodeUnderPart(nodes[i], part, d);
        NodeKept(nodes[i], part);
        if ShallowIn(nodes[i], part.Keys) {
          ShallowOccurs(nodes[i], part.Keys);
        }
      }
    } else {
      OccursAnyByNode(nodes, missing);
      forall i | 0 <= i < |nodes| ensures !ShallowIn(nodes[i], missing) {
        if ShallowIn(nodes[i], missing) {
          ShallowOccurs(nodes[i], missing);
        }
      }
    }
    if !AnyShallow(nodes, missing) && (OccursAny(nodes, part.Keys) || !AnyEmptyGroup(nodes)) {
      assert few == all;
    }
  }
}
