/** What the revision-chain guard's counting tests say about the whole history: a straight
    line from the base to the head, plus, possibly, parent cycles nothing else touches. */
module RevisionLine {
  import opened Wrappers
  import opened RevisionChain
  import opened Pigeonhole

  // ---------- Parents are injective ----------

  ghost predicate OneChildEach(revs: seq<Revision>) {
    forall i, a, b :: Child(revs, i, a) && Child(revs, i, b) ==> a == b
  }

  /** `m` sends every revision but the base to its parent. */
  ghost predicate IsParentMap(revs: seq<Revision>, base: int, m: map<int, int>) {
    && m.Keys == Positions(|revs|) - {base}
    && forall p, j :: Child(revs, p, j) <==> j in m && m[j] == p
  }

  lemma CollectParents(revs: seq<Revision>, base: int) returns (m: map<int, int>)
    requires ParentsExist(revs) && OnlyBase(revs, base)
    ensures m.Keys == Positions(|revs|) - {base}
    ensures forall j :: j in m ==> Child(revs, m[j], j)
  {
    hide Child;
    m := map[];
    for k := 0 to |revs|
      invariant m.Keys == Positions(k) - {base}
      invariant forall j :: j in m ==> Child(revs, m[j], j)
    {
      if k != base {
        assert InRange(revs, k);
        assert HasParent(revs, k);
        var i :| Child(revs, i, k);
        m := m[k := i];
      }
    }
  }

  lemma SameParent(revs: seq<Revision>, p: int, q: int, j: int)
    requires DistinctIds(revs) && Child(revs, p, j) && Child(revs, q, j)
    ensures p == q
  {
  }

  lemma ParentMap(revs: seq<Revision>, base: int) returns (m: map<int, int>)
    requires DistinctIds(revs) && ParentsExist(revs) && OnlyBase(revs, base)
    ensures IsParentMap(revs, base, m)
  {
    m := CollectParents(revs, base);
    forall p, j | Child(revs, p, j) ensures j in m && m[j] == p {
      assert j in m;
      SameParent(revs, m[j], p, j);
    }
  }

  /** With one head, the parents taken are all revisions but the head. */
  lemma ParentsTaken(revs: seq<Revision>, base: int, head: int, m: map<int, int>)
    requires IsParentMap(revs, base, m) && OnlyHead(revs, head)
    ensures m.Values == Positions(|revs|) - {head}
  {
    forall p | p in Positions(|revs|) - {head} ensures p in m.Values {
      assert InRange(revs, p) && HasChild(revs, p);
      var j :| Child(revs, p, j);
    }
    forall p | p in m.Values ensures p in Positions(|revs|) - {head} {
      var j :| j in m && m[j] == p;
      assert Child(revs, p, j);
    }
  }

  /** In a sound history no revision has two children. */
  lemma AtMostOneChild(revs: seq<Revision>)
    requires Sound(revs)
    ensures OneChildEach(revs)
  {
    var base :| OnlyBase(revs, base);
    var head :| OnlyHead(revs, head);
    var m := ParentMap(revs, base);
    ParentsTaken(revs, base, head, m);
    FullMapOneChildEach(revs, base, head, m);
  }

  lemma FullMapOneChildEach(revs: seq<Revision>, base: int, head: int, m: map<int, int>)
    requires IsParentMap(revs, base, m) && m.Values == Positions(|revs|) - {head}
    requires InRange(revs, base) && InRange(revs, head)
    ensures OneChildEach(revs)
  {
    forall i, a, b | Child(revs, i, a) && Child(revs, i, b) ensures a == b {
      if a != b {
        CollisionLosesValue(m, a, b);
      }
    }
  }

  // ---------- The walk from the base ----------

  /** Each revision on `line` chains off the one before it, starting from a base. */
  ghost predicate IsWalk(revs: seq<Revision>, line: seq<int>) {
    && line != []
    && InRange(revs, line[0]) && revs[line[0]].down.None?
    && forall k :: 0 < k < |line| ==> Child(revs, line[k - 1], line[k])
  }

  /** A walk that stops because nothing chains off its last revision, visiting none twice. */
  ghost predicate IsLine(revs: seq<Revision>, line: seq<int>) {
    IsWalk(revs, line) && NoRepeats(line) && !HasChild(revs, line[|line| - 1])
  }

  lemma WalkStaysInRange(revs: seq<Revision>, line: seq<int>, k: int)
    requires IsWalk(revs, line) && 0 <= k < |line|
    ensures InRange(revs, line[k])
  {
    assert k > 0 ==> Child(revs, line[k - 1], line[k]);
  }

  lemma ExtendedWalkIsNew(revs: seq<Revision>, line: seq<int>, next: int)
    requires DistinctIds(revs) && IsWalk(revs, line) && NoRepeats(line)
    requires Child(revs, line[|line| - 1], next)
    ensures NoRepeats(line + [next])
  {
    var last := |line| - 1;
    forall k | 0 <= k < |line| ensures line[k] != next {
      assert k > 0 ==> Child(revs, line[k - 1], line[k]);
    }
  }

  lemma {:induction false} WalkReachesEnd(revs: seq<Revision>, line: seq<int>) returns (full: seq<int>)
    requires DistinctIds(revs) && IsWalk(revs, line) && NoRepeats(line)
    ensures IsLine(revs, full)
    decreases |revs| - |line|
  {
    forall x | x in line ensures x in Positions(|revs|) {
      var k :| 0 <= k < |line| && line[k] == x;
      WalkStaysInRange(revs, line, k);
    }
    NoRepeatsFits(line, Positions(|revs|));
    var last := line[|line| - 1];
    if HasChild(revs, last) {
      var next :| Child(revs, last, next);
      ExtendedWalkIsNew(revs, line, next);
      var longer := line + [next];
      forall x | x in longer ensures x in Positions(|revs|) {
      }
      NoRepeatsFits(longer, Positions(|revs|));
      full := WalkReachesEnd(revs, longer);
    } else {
      full := line;
    }
  }

  // ---------- Cycles ----------

  /** Following parents from `cycle[0]` through `cycle` leads back to `cycle[0]`. */
  ghost predicate IsCycle(revs: seq<Revision>, cycle: seq<int>) {
    && cycle != []
    && (forall k :: 0 < k < |cycle| ==> Child(revs, cycle[k], cycle[k - 1]))
    && Child(revs, cycle[0], cycle[|cycle| - 1])
  }

  ghost predicate OnCycle(revs: seq<Revision>, i: int) {
    exists cycle :: IsCycle(revs, cycle) && cycle[0] == i
  }

  lemma {:induction false} LineAvoidsCycle(revs: seq<Revision>, line: seq<int>, cycle: seq<int>, k: int)
    requires DistinctIds(revs) && IsWalk(revs, line) && IsCycle(revs, cycle)
    requires 0 <= k < |line|
    ensures line[k] !in cycle
    decreases k
  {
    if line[k] in cycle {
      var m :| 0 <= m < |cycle| && cycle[m] == line[k];
      var up := if m + 1 < |cycle| then cycle[m + 1] else cycle[0];
      assert Child(revs, up, cycle[m]) && up in cycle;
      if k > 0 {
        assert Child(revs, line[k - 1], line[k]);
        LineAvoidsCycle(revs, line, cycle, k - 1);
      }
    }
  }

  lemma ClimbAvoidsLine(revs: seq<Revision>, line: seq<int>, i: int, up: int)
    requires OneChildEach(revs) && IsLine(revs, line)
    requires i !in line && Child(revs, up, i)
    ensures up !in line
  {
    forall m | 0 <= m < |line| ensures line[m] != up {
      assert m + 1 < |line| ==> Child(revs, line[m], line[m + 1]);
    }
  }

  lemma BelowOnClimb(revs: seq<Revision>, climb: seq<int>, m: int)
    requires 0 <= m < |climb|
    requires forall k :: 0 < k < |climb| ==> Child(revs, climb[k], climb[k - 1])
    ensures m > 0 ==> Child(revs, climb[m], climb[m - 1])
  {
  }

  lemma RepeatClosesCycle(revs: seq<Revision>, climb: seq<int>, up: int)
    requires OneChildEach(revs) && climb != [] && NoRepeats(climb)
    requires forall k :: 0 < k < |climb| ==> Child(revs, climb[k], climb[k - 1])
    requires Child(revs, up, climb[|climb| - 1]) && up in climb
    ensures up == climb[0]
  {
    var m :| 0 <= m < |climb| && climb[m] == up;
    BelowOnClimb(revs, climb, m);
  }

  /** Going up from a revision off the line never meets the line, so it comes back around. */
  lemma {:induction false} OffLineClimb(revs: seq<Revision>, line: seq<int>, climb: seq<int>) returns (cycle: seq<int>)
    requires OneChildEach(revs) && ParentsExist(revs) && IsLine(revs, line) && OnlyBase(revs, line[0])
    requires climb != [] && NoRepeats(climb)
    requires forall x :: x in climb ==> x in Positions(|revs|) && x !in line
    requires forall k :: 0 < k < |climb| ==> Child(revs, climb[k], climb[k - 1])
    ensures IsCycle(revs, cycle) && cycle[0] == climb[0]
    decreases |revs| - |climb|
  {
    var last := climb[|climb| - 1];
    assert last in climb && InRange(revs, last) && last != line[0];
    assert HasParent(revs, last);
    var up :| Child(revs, up, last);
    ClimbAvoidsLine(revs, line, last, up);
    if up in climb {
      RepeatClosesCycle(revs, climb, up);
      cycle := climb;
    } else {
      NoRepeatsFits(climb + [up], Positions(|revs|));
      cycle := OffLineClimb(revs, line, climb + [up]);
    }
  }

  // ---------- What the guard proves ----------

  /** A clean report gives exactly one line from the base to the head; the revisions off it
      are exactly those on parent cycles. */
  lemma SoundShape(revs: seq<Revision>) returns (line: seq<int>)
    requires Sound(revs)
    ensures IsLine(revs, line)
    ensures OnlyBase(revs, line[0]) && OnlyHead(revs, line[|line| - 1])
    ensures forall i :: InRange(revs, i) ==> (i in line <==> !OnCycle(revs, i))
  {
    var base :| OnlyBase(revs, base);
    var head :| OnlyHead(revs, head);
    line := WalkReachesEnd(revs, [base]);
    WalkStaysInRange(revs, line, |line| - 1);
    assert line[|line| - 1] == head;
    forall i | InRange(revs, i) ensures i in line <==> !OnCycle(revs, i) {
      if i in line {
        var k :| 0 <= k < |line| && line[k] == i;
        if cycle :| IsCycle(revs, cycle) && cycle[0] == i {
          LineAvoidsCycle(revs, line, cycle, k);
        }
      } else {
        AtMostOneChild(revs);
        var cycle := OffLineClimb(revs, line, [i]);
      }
    }
  }

  /** The history is one straight line: every file on it once, ids distinct, none left out. */
  ghost predicate SingleLine(revs: seq<Revision>) {
    DistinctIds(revs) && exists line :: IsLine(revs, line) && forall i :: InRange(revs, i) ==> i in line
  }

  ghost predicate Acyclic(revs: seq<Revision>) {
    forall i :: InRange(revs, i) ==> !OnCycle(revs, i)
  }

  lemma SingleLineIsSound(revs: seq<Revision>)
    requires SingleLine(revs) && PrefixesMatch(revs)
    ensures Sound(revs) && Acyclic(revs)
  {
    var line :| IsLine(revs, line) && forall i :: InRange(revs, i) ==> i in line;
    var base, head := line[0], line[|line| - 1];
    forall i | InRange(revs, i)
      ensures i != base ==> HasParent(revs, i)
      ensures i != head ==> HasChild(revs, i)
      ensures !OnCycle(revs, i)
    {
      var k :| 0 <= k < |line| && line[k] == i;
      if i != base {
        assert Child(revs, line[k - 1], line[k]);
      }
      if i != head {
        assert Child(revs, line[k], line[k + 1]);
      }
      if cycle :| IsCycle(revs, cycle) && cycle[0] == i {
        LineAvoidsCycle(revs, line, cycle, k);
      }
    }
    WalkStaysInRange(revs, line, |line| - 1);
    assert OnlyBase(revs, base);
    assert OnlyHead(revs, head);
  }

  /** The guard's promise, exactly: a non-empty history that passes is a single straight line
      if and only if it has no parent cycle, and every correctly named single line passes. */
  lemma GuardMeansSingleLine(revs: seq<Revision>)
    ensures Sound(revs) && Acyclic(revs) <==> SingleLine(revs) && PrefixesMatch(revs)
  {
    if Sound(revs) && Acyclic(revs) {
      var line := SoundShape(revs);
    }
    if SingleLine(revs) && PrefixesMatch(revs) {
      SingleLineIsSound(revs);
    }
  }

  /** The head that is announced after a clean report. */
  function AnnouncedHead(revs: seq<Revision>): Revision
    requires Heads(revs) != []
  {
    Heads(revs)[0]
  }

  /** It is the last revision of the line, whether or not cycles are present. */
  lemma AnnouncedHeadEndsTheLine(revs: seq<Revision>, line: seq<int>)
    requires ParentsNamed(revs) && Sound(revs) && IsLine(revs, line)
    ensures Heads(revs) != [] && InRange(revs, line[|line| - 1])
    ensures AnnouncedHead(revs) == revs[line[|line| - 1]]
  {
    HeadCount(revs);
    var announced := AnnouncedHead(revs);
    assert announced in Heads(revs);
    var i :| InRange(revs, i) && revs[i] == announced;
    ParentsAreThoseWithChildren(revs, i);
    var head :| OnlyHead(revs, head);
    WalkStaysInRange(revs, line, |line| - 1);
  }

  lemma PrefixOfOne(c: char, rest: char)
    requires c != '_'
    ensures Prefix([c, '_', rest]) == [c]
  {
    assert [c, '_', rest][1..] == ['_', rest];
    assert Prefix(['_', rest]) == "";
  }

  /** A line of two and, beside it, two revisions that are each other's parent. */
  ghost predicate HasDetachedCycle(revs: seq<Revision>) {
    && |revs| == 4 && DistinctIds(revs)
    && revs[0].down == None && revs[1].down == Some(revs[0].id)
    && revs[2].down == Some(revs[3].id) && revs[3].down == Some(revs[2].id)
  }

  /** The counting tests do not see a detached cycle. */
  lemma DetachedCyclePasses(revs: seq<Revision>)
    requires HasDetachedCycle(revs) && PrefixesMatch(revs)
    ensures Sound(revs) && !SingleLine(revs)
  {
    hide SingleLine, PrefixesMatch;
    assert Child(revs, 0, 1) && Child(revs, 3, 2) && Child(revs, 2, 3);
    assert ParentsExist(revs) by {
      assert HasParent(revs, 1) && HasParent(revs, 2) && HasParent(revs, 3);
    }
    assert OnlyBase(revs, 0);
    assert OnlyHead(revs, 1) by {
      assert HasChild(revs, 0) && HasChild(revs, 2) && HasChild(revs, 3);
    }
    assert IsCycle(revs, [2, 3]);
    assert OnCycle(revs, 2);
    if SingleLine(revs) {
      SingleLineIsSound(revs);
    }
  }

  /** Four files that pass the guard and are not a single line. */
  lemma DetachedCycleExample()
    ensures var revs := [Revision("1_a", "1", None), Revision("2_b", "2", Some("1")),
                         Revision("3_c", "3", Some("4")), Revision("4_d", "4", Some("3"))];
            Sound(revs) && !SingleLine(revs)
  {
    var revs := [Revision("1_a", "1", None), Revision("2_b", "2", Some("1")),
                 Revision("3_c", "3", Some("4")), Revision("4_d", "4", Some("3"))];
    PrefixOfOne('1', 'a');
    PrefixOfOne('2', 'b');
    PrefixOfOne('3', 'c');
    PrefixOfOne('4', 'd');
    DetachedCyclePasses(revs);
  }

  /** Two files, the second chaining off the first, pass the guard and are a single line. */
  lemma StraightLineExample()
    ensures var revs := [Revision("1_a", "1", None), Revision("2_b", "2", Some("1"))];
            Sound(revs) && SingleLine(revs)
  {
    var revs := [Revision("1_a", "1", None), Revision("2_b", "2", Some("1"))];
    assert Prefix("1_a") == "1" by { PrefixOfOne('1', 'a'); }
    assert Prefix("2_b") == "2" by { PrefixOfOne('2', 'b'); }
    assert Child(revs, 0, 1);
    assert IsLine(revs, [0, 1]);
    assert SingleLine(revs);
    SingleLineIsSound(revs);
  }
}
