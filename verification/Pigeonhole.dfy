/** Counting arguments: how many distinct things fit where. */
module Pigeonhole {

  lemma {:induction false} ValuesNoMore<S, T>(m: map<S, T>)
    ensures |m.Values| <= |m.Keys|
  {
    if m.Keys != {} {
      var x :| x in m;
      var rest := m - {x};
      ValuesNoMore(rest);
      assert m.Values == rest.Values + {m[x]};
      assert m.Keys == rest.Keys + {x};
    }
  }

  /** A map that sends two keys to the same value has fewer values than keys. */
  lemma CollisionLosesValue<S, T>(m: map<S, T>, a: S, b: S)
    requires a in m && b in m && a != b && m[a] == m[b]
    ensures |m.Values| < |m.Keys|
  {
    var rest := m - {a};
    forall v | v in m.Values ensures v in rest.Values {
      var x :| x in m && m[x] == v;
      assert rest[if x == a then b else x] == v;
    }
    assert m.Values == rest.Values;
    assert m.Keys == rest.Keys + {a};
    ValuesNoMore(rest);
  }

  ghost predicate NoRepeats<T>(s: seq<T>) {
    forall i, j :: 0 <= i < j < |s| ==> s[i] != s[j]
  }

  ghost function Positions(n: nat): (s: set<int>)
    ensures |s| == n
    ensures forall i :: i in s <==> 0 <= i < n
  {
    if n == 0 then {} else Positions(n - 1) + {n - 1}
  }

  lemma {:induction false} NoRepeatsFits<T>(s: seq<T>, room: set<T>)
    requires NoRepeats(s) && forall x :: x in s ==> x in room
    ensures |s| <= |room|
  {
    if s != [] {
      var last := |s| - 1;
      assert s[last] in room;
      forall x | x in s[..last] ensures x in room - {s[last]} {
        var i :| 0 <= i < last && s[i] == x;
      }
      NoRepeatsFits(s[..last], room - {s[last]});
    }
  }
}
