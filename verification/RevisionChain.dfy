/** The Alembic revision-chain guard: what its counting tests report, and what an empty
    report says about the shape of the history. */
module RevisionChain {
  import opened Wrappers

  /** One parsed migration file. */
  datatype Revision = Revision(name: string, id: string, down: Option<string>)

  /** One reported problem. File lists are multisets: the messages sort them for display. */
  datatype Problem =
    | Unparsed(message: string)
    | NoFiles
    | ClaimedTwice(id: string, files: multiset<string>)
    | MissingParent(name: string, down: string)
    | NotOneBase(files: multiset<string>)
    | NotOneHead(files: multiset<string>)
    | WrongPrefix(name: string, prefix: string, id: string)

  // ---------- Lists ----------

  function Filter(revs: seq<Revision>, keep: Revision -> bool): (kept: seq<Revision>)
    ensures forall r :: r in kept <==> r in revs && keep(r)
  {
    if revs == [] then []
    else (if keep(revs[0]) then [revs[0]] else []) + Filter(revs[1..], keep)
  }

  lemma {:induction false} FilterEmpty(revs: seq<Revision>, keep: Revision -> bool)
    ensures Filter(revs, keep) == [] <==> forall i :: 0 <= i < |revs| ==> !keep(revs[i])
  {
    assert Filter(revs, keep) != [] ==> Filter(revs, keep)[0] in Filter(revs, keep);
  }

  /** At most one revision is kept exactly when no two positions satisfy the test. */
  lemma {:induction false} FilterAtMostOne(revs: seq<Revision>, keep: Revision -> bool)
    ensures |Filter(revs, keep)| <= 1 <==>
            forall i, j :: 0 <= i < j < |revs| ==> !(keep(revs[i]) && keep(revs[j]))
  {
    if revs != [] {
      var rest := revs[1..];
      FilterAtMostOne(rest, keep);
      FilterEmpty(rest, keep);
      if forall i, j :: 0 <= i < j < |revs| ==> !(keep(revs[i]) && keep(revs[j])) {
        forall i, j | 0 <= i < j < |rest| ensures !(keep(rest[i]) && keep(rest[j])) {
          assert rest[i] == revs[i + 1] && rest[j] == revs[j + 1];
        }
        if keep(revs[0]) {
          forall i | 0 <= i < |rest| ensures !keep(rest[i]) {
            assert rest[i] == revs[i + 1];
          }
        }
      } else {
        var i, j :| 0 <= i < j < |revs| && keep(revs[i]) && keep(revs[j]);
        assert revs[j] == rest[j - 1];
        if i > 0 {
          assert revs[i] == rest[i - 1];
        }
      }
    }
  }

  function Names(revs: seq<Revision>): (names: multiset<string>)
    ensures |names| == |revs|
    ensures forall name :: name in names <==> exists r :: r in revs && r.name == name
  {
    if revs == [] then multiset{} else multiset{revs[0].name} + Names(revs[1..])
  }

  /** The file name up to its first underscore. */
  function Prefix(name: string): (p: string)
    ensures p <= name && '_' !in p && (p == name || name[|p|] == '_')
  {
    if name == "" || name[0] == '_' then "" else [name[0]] + Prefix(name[1..])
  }

  // ---------- The report ----------

  function Claiming(revs: seq<Revision>, id: string): seq<Revision> {
    Filter(revs, (r: Revision) => r.id == id)
  }

  function Bases(revs: seq<Revision>): seq<Revision> {
    Filter(revs, (r: Revision) => r.down.None?)
  }

  /** Only a non-empty `down_revision` counts as a parent. */
  function Parents(revs: seq<Revision>): set<string> {
    set r | r in revs && r.down.Some? && r.down.value != "" :: r.down.value
  }

  function Heads(revs: seq<Revision>): seq<Revision> {
    var parents := Parents(revs);
    Filter(revs, (r: Revision) => r.id !in parents)
  }

  /** The problems a set of files has, kind by kind. */
  ghost predicate IsProblem(p: Problem, revs: seq<Revision>, unparsed: seq<string>) {
    match p
    case Unparsed(message) => message in unparsed
    case NoFiles => revs == []
    case ClaimedTwice(id, files) => |Claiming(revs, id)| > 1 && files == Names(Claiming(revs, id))
    case MissingParent(name, down) =>
      exists r :: r in revs && r.name == name && r.down == Some(down) && Claiming(revs, down) == []
    case NotOneBase(files) => revs != [] && |Bases(revs)| != 1 && files == Names(Bases(revs))
    case NotOneHead(files) => revs != [] && |Heads(revs)| != 1 && files == Names(Heads(revs))
    case WrongPrefix(name, prefix, id) =>
      exists r :: r in revs && r.name == name && r.id == id && prefix == Prefix(name) && prefix != id
  }

  // ---------- The same tests, position by position ----------

  ghost predicate InRange(revs: seq<Revision>, i: int) {
    0 <= i < |revs|
  }

  /** `j` chains off `i`. */
  ghost predicate Child(revs: seq<Revision>, i: int, j: int) {
    InRange(revs, i) && InRange(revs, j) && revs[j].down == Some(revs[i].id)
  }

  ghost predicate HasChild(revs: seq<Revision>, i: int) {
    exists j :: Child(revs, i, j)
  }

  ghost predicate HasParent(revs: seq<Revision>, j: int) {
    exists i :: Child(revs, i, j)
  }

  ghost predicate DistinctIds(revs: seq<Revision>) {
    forall i, j :: 0 <= i < j < |revs| ==> revs[i].id != revs[j].id
  }

  ghost predicate ParentsExist(revs: seq<Revision>) {
    forall j :: InRange(revs, j) && revs[j].down.Some? ==> HasParent(revs, j)
  }

  ghost predicate OnlyBase(revs: seq<Revision>, b: int) {
    && InRange(revs, b) && revs[b].down.None?
    && forall i :: InRange(revs, i) && i != b ==> revs[i].down.Some?
  }

  ghost predicate OnlyHead(revs: seq<Revision>, h: int) {
    && InRange(revs, h) && !HasChild(revs, h)
    && forall i :: InRange(revs, i) && i != h ==> HasChild(revs, i)
  }

  ghost predicate PrefixesMatch(revs: seq<Revision>) {
    forall i :: InRange(revs, i) ==> Prefix(revs[i].name) == revs[i].id
  }

  /** What the guard tests for: local counts and lookups, nothing about the whole line. */
  ghost predicate Sound(revs: seq<Revision>) {
    && DistinctIds(revs)
    && ParentsExist(revs)
    && (exists b :: OnlyBase(revs, b))
    && (exists h :: OnlyHead(revs, h))
    && PrefixesMatch(revs)
  }

  /** The parser only yields quoted, non-empty parents. */
  ghost predicate ParentsNamed(revs: seq<Revision>) {
    forall r :: r in revs && r.down.Some? ==> r.down.value != ""
  }

  lemma ClashIffRepeated(revs: seq<Revision>)
    ensures DistinctIds(revs) <==> forall id :: |Claiming(revs, id)| <= 1
  {
    forall id ensures |Claiming(revs, id)| <= 1 <==>
                      forall i, j :: 0 <= i < j < |revs| ==> !(revs[i].id == id && revs[j].id == id) {
      FilterAtMostOne(revs, (r: Revision) => r.id == id);
    }
    if !DistinctIds(revs) {
      var i, j :| 0 <= i < j < |revs| && revs[i].id == revs[j].id;
      assert |Claiming(revs, revs[i].id)| > 1;
    }
  }

  lemma OnlyOneKept(revs: seq<Revision>, keep: Revision -> bool)
    ensures |Filter(revs, keep)| == 1 <==>
            exists b :: InRange(revs, b) && keep(revs[b]) && forall i :: InRange(revs, i) && i != b ==> !keep(revs[i])
  {
    FilterAtMostOne(revs, keep);
    FilterEmpty(revs, keep);
    if |Filter(revs, keep)| == 1 {
      var b :| 0 <= b < |revs| && keep(revs[b]);
      forall i | InRange(revs, i) && i != b ensures !keep(revs[i]) {
        var lo, hi := if i < b then i else b, if i < b then b else i;
        assert !(keep(revs[lo]) && keep(revs[hi]));
      }
    }
  }

  lemma BaseCount(revs: seq<Revision>)
    ensures |Bases(revs)| == 1 <==> exists b :: OnlyBase(revs, b)
  {
    OnlyOneKept(revs, (r: Revision) => r.down.None?);
    if b :| OnlyBase(revs, b) {
      assert InRange(revs, b) && forall i :: InRange(revs, i) && i != b ==> !revs[i].down.None?;
    }
    if b :| InRange(revs, b) && revs[b].down.None? && forall i :: InRange(revs, i) && i != b ==> !revs[i].down.None? {
      assert OnlyBase(revs, b);
    }
  }

  lemma ParentsAreThoseWithChildren(revs: seq<Revision>, i: int)
    requires ParentsNamed(revs) && InRange(revs, i)
    ensures revs[i].id in Parents(revs) <==> HasChild(revs, i)
  {
    if revs[i].id in Parents(revs) {
      var r :| r in revs && r.down == Some(revs[i].id);
      var j :| 0 <= j < |revs| && revs[j] == r;
      assert Child(revs, i, j);
    }
    if HasChild(revs, i) {
      var j :| Child(revs, i, j);
      assert revs[j] in revs;
    }
  }

  lemma HeadCount(revs: seq<Revision>)
    requires ParentsNamed(revs)
    ensures |Heads(revs)| == 1 <==> exists h :: OnlyHead(revs, h)
  {
    var parents := Parents(revs);
    OnlyOneKept(revs, (r: Revision) => r.id !in parents);
    forall i | InRange(revs, i) ensures revs[i].id in parents <==> HasChild(revs, i) {
      ParentsAreThoseWithChildren(revs, i);
    }
    if h :| OnlyHead(revs, h) {
      assert InRange(revs, h) && revs[h].id !in parents;
    }
    if h :| InRange(revs, h) && revs[h].id !in parents
            && forall i :: InRange(revs, i) && i != h ==> revs[i].id in parents {
      assert OnlyHead(revs, h);
    }
  }

  lemma ParentLookups(revs: seq<Revision>)
    ensures ParentsExist(revs) <==>
            forall j :: InRange(revs, j) && revs[j].down.Some? ==> Claiming(revs, revs[j].down.value) != []
  {
    forall j | InRange(revs, j) && revs[j].down.Some?
      ensures HasParent(revs, j) <==> Claiming(revs, revs[j].down.value) != []
    {
      var id := revs[j].down.value;
      FilterEmpty(revs, (r: Revision) => r.id == id);
      if i :| 0 <= i < |revs| && revs[i].id == id {
        assert Child(revs, i, j);
      }
    }
  }

  lemma NoMissingParent(revs: seq<Revision>, name: string, down: string)
    requires ParentsExist(revs)
    ensures !IsProblem(MissingParent(name, down), revs, [])
  {
    ParentLookups(revs);
    forall r | r in revs && r.down == Some(down) ensures Claiming(revs, down) != [] {
      var j :| 0 <= j < |revs| && revs[j] == r;
      assert InRange(revs, j);
    }
  }

  lemma NoWrongPrefix(revs: seq<Revision>, name: string, prefix: string, id: string)
    requires PrefixesMatch(revs)
    ensures !IsProblem(WrongPrefix(name, prefix, id), revs, [])
  {
    forall r | r in revs ensures Prefix(r.name) == r.id {
      var j :| 0 <= j < |revs| && revs[j] == r;
      assert InRange(revs, j);
    }
  }

  lemma SoundReportsNothing(revs: seq<Revision>, p: Problem)
    requires ParentsNamed(revs) && revs != [] && Sound(revs)
    ensures !IsProblem(p, revs, [])
  {
    match p
    case Unparsed(_) =>
    case NoFiles =>
    case ClaimedTwice(_, _) => ClashIffRepeated(revs);
    case MissingParent(name, down) => NoMissingParent(revs, name, down);
    case NotOneBase(_) => BaseCount(revs);
    case NotOneHead(_) => HeadCount(revs);
    case WrongPrefix(name, prefix, id) => NoWrongPrefix(revs, name, prefix, id);
  }

  lemma ReportedParentsExist(revs: seq<Revision>, unparsed: seq<string>)
    requires forall p :: !IsProblem(p, revs, unparsed)
    ensures ParentsExist(revs)
  {
    ParentLookups(revs);
    forall j | InRange(revs, j) && revs[j].down.Some? ensures Claiming(revs, revs[j].down.value) != [] {
      assert revs[j] in revs;
      assert !IsProblem(MissingParent(revs[j].name, revs[j].down.value), revs, unparsed);
    }
  }

  lemma ReportedPrefixesMatch(revs: seq<Revision>, unparsed: seq<string>)
    requires forall p :: !IsProblem(p, revs, unparsed)
    ensures PrefixesMatch(revs)
  {
    forall i | InRange(revs, i) ensures Prefix(revs[i].name) == revs[i].id {
      assert revs[i] in revs;
      assert !IsProblem(WrongPrefix(revs[i].name, Prefix(revs[i].name), revs[i].id), revs, unparsed);
    }
  }

  lemma ReportedIdsDistinct(revs: seq<Revision>, unparsed: seq<string>)
    requires forall p :: !IsProblem(p, revs, unparsed)
    ensures DistinctIds(revs)
  {
    ClashIffRepeated(revs);
    forall id ensures |Claiming(revs, id)| <= 1 {
      assert !IsProblem(ClaimedTwice(id, Names(Claiming(revs, id))), revs, unparsed);
    }
  }

  lemma ReportedOneBase(revs: seq<Revision>, unparsed: seq<string>)
    requires revs != [] && forall p :: !IsProblem(p, revs, unparsed)
    ensures exists b :: OnlyBase(revs, b)
  {
    BaseCount(revs);
    assert !IsProblem(NotOneBase(Names(Bases(revs))), revs, unparsed);
  }

  lemma ReportedOneHead(revs: seq<Revision>, unparsed: seq<string>)
    requires ParentsNamed(revs) && revs != [] && forall p :: !IsProblem(p, revs, unparsed)
    ensures exists h :: OnlyHead(revs, h)
  {
    HeadCount(revs);
    assert !IsProblem(NotOneHead(Names(Heads(revs))), revs, unparsed);
  }

  lemma NoProblemMeansSound(revs: seq<Revision>, unparsed: seq<string>)
    requires ParentsNamed(revs)
    requires forall p :: !IsProblem(p, revs, unparsed)
    ensures unparsed == [] && revs != [] && Sound(revs)
  {
    hide DistinctIds, ParentsExist, OnlyBase, OnlyHead, PrefixesMatch;
    assert !IsProblem(NoFiles, revs, unparsed);
    assert unparsed != [] ==> IsProblem(Unparsed(unparsed[0]), revs, unparsed);
    ReportedIdsDistinct(revs, unparsed);
    ReportedParentsExist(revs, unparsed);
    ReportedOneBase(revs, unparsed);
    ReportedOneHead(revs, unparsed);
    ReportedPrefixesMatch(revs, unparsed);
  }

  /** Nothing is reported exactly when every file parsed, there is one, and the tests pass. */
  lemma NothingToReport(revs: seq<Revision>, unparsed: seq<string>)
    requires ParentsNamed(revs)
    ensures (forall p :: !IsProblem(p, revs, unparsed)) <==> unparsed == [] && revs != [] && Sound(revs)
  {
    if forall p :: !IsProblem(p, revs, unparsed) {
      NoProblemMeansSound(revs, unparsed);
    }
    if unparsed == [] && revs != [] && Sound(revs) {
      forall p ensures !IsProblem(p, revs, unparsed) {
        SoundReportsNothing(revs, p);
      }
    }
  }

  // ---------- The report, in terms of the files alone ----------

  /** How many files pass a test, and how many of those have a given name. */
  ghost function CountWhere(revs: seq<Revision>, test: Revision -> bool): nat {
    if revs == [] then 0 else (if test(revs[0]) then 1 else 0) + CountWhere(revs[1..], test)
  }

  ghost function CountNamed(revs: seq<Revision>, test: Revision -> bool, name: string): nat {
    if revs == [] then 0
    else (if test(revs[0]) && revs[0].name == name then 1 else 0) + CountNamed(revs[1..], test, name)
  }

  /** A list of files: exactly those that pass the test, by their names. */
  ghost predicate Lists(files: multiset<string>, revs: seq<Revision>, test: Revision -> bool) {
    |files| == CountWhere(revs, test) && forall name :: files[name] == CountNamed(revs, test, name)
  }

  lemma {:induction false} NamesOfFiltered(revs: seq<Revision>, test: Revision -> bool, name: string)
    ensures Names(Filter(revs, test))[name] == CountNamed(revs, test, name)
    ensures |Filter(revs, test)| == CountWhere(revs, test)
  {
    if revs != [] {
      NamesOfFiltered(revs[1..], test, name);
      var rest := Filter(revs[1..], test);
      if test(revs[0]) {
        assert ([revs[0]] + rest)[1..] == rest;
      } else {
        assert Filter(revs, test) == rest;
      }
    }
  }

  lemma ListsFiltered(revs: seq<Revision>, test: Revision -> bool)
    ensures Lists(Names(Filter(revs, test)), revs, test)
  {
    NamesOfFiltered(revs, test, "");
    forall name ensures Names(Filter(revs, test))[name] == CountNamed(revs, test, name) {
      NamesOfFiltered(revs, test, name);
    }
  }

  lemma ListsOnce(a: multiset<string>, b: multiset<string>, revs: seq<Revision>, test: Revision -> bool)
    requires Lists(a, revs, test) && Lists(b, revs, test)
    ensures a == b
  {
    forall name ensures a[name] == b[name] {
      assert a[name] == CountNamed(revs, test, name);
    }
  }

  /** The filtered files are the list of those that pass the test, and no other list is. */
  lemma ListedExactly(files: multiset<string>, revs: seq<Revision>, test: Revision -> bool)
    ensures Lists(files, revs, test) <==> files == Names(Filter(revs, test))
  {
    ListsFiltered(revs, test);
    if Lists(files, revs, test) {
      ListsOnce(files, Names(Filter(revs, test)), revs, test);
    }
  }

  lemma {:induction false} SameFilter(revs: seq<Revision>, one: Revision -> bool, two: Revision -> bool)
    requires forall r :: one(r) <==> two(r)
    ensures Filter(revs, one) == Filter(revs, two)
  {
    if revs != [] {
      SameFilter(revs[1..], one, two);
    }
  }

  /** Nothing chains off the revision. */
  ghost predicate IsChildless(revs: seq<Revision>, r: Revision) {
    forall q :: q in revs ==> q.down != Some(r.id)
  }

  lemma HeadsAreChildless(revs: seq<Revision>)
    requires ParentsNamed(revs)
    ensures Heads(revs) == Filter(revs, (r: Revision) => IsChildless(revs, r))
  {
    var parents := Parents(revs);
    var byParent, byChild := (r: Revision) => r.id !in parents, (r: Revision) => IsChildless(revs, r);
    forall r: Revision ensures byParent(r) <==> byChild(r) {
      if r.id in parents {
        var q :| q in revs && q.down == Some(r.id);
      }
    }
    SameFilter(revs, byParent, byChild);
  }

  lemma BasesAreParentless(revs: seq<Revision>)
    ensures Bases(revs) == Filter(revs, (r: Revision) => r.down == None)
  {
    SameFilter(revs, (r: Revision) => r.down.None?, (r: Revision) => r.down == None);
  }

  /** What each problem says, of the files alone. */
  lemma ProblemMeaning(p: Problem, revs: seq<Revision>, unparsed: seq<string>)
    requires ParentsNamed(revs)
    ensures IsProblem(p, revs, unparsed) <==>
              match p
              case Unparsed(message) => message in unparsed
              case NoFiles => revs == []
              case ClaimedTwice(id, files) => |files| > 1 && Lists(files, revs, (r: Revision) => r.id == id)
              case MissingParent(name, down) =>
                && (exists r :: r in revs && r.name == name && r.down == Some(down))
                && forall q :: q in revs ==> q.id != down
              case NotOneBase(files) =>
                revs != [] && |files| != 1 && Lists(files, revs, (r: Revision) => r.down == None)
              case NotOneHead(files) =>
                revs != [] && |files| != 1 && Lists(files, revs, (r: Revision) => IsChildless(revs, r))
              case WrongPrefix(name, prefix, id) =>
                && (exists r :: r in revs && r.name == name && r.id == id) && prefix != id
                && prefix <= name && '_' !in prefix && (prefix == name || name[|prefix|] == '_')
  {
    match p
    case ClaimedTwice(id, files) => ListedExactly(files, revs, (r: Revision) => r.id == id);
    case MissingParent(name, down) => FilterEmpty(revs, (r: Revision) => r.id == down);
    case NotOneBase(files) =>
      BasesAreParentless(revs);
      ListedExactly(files, revs, (r: Revision) => r.down == None);
    case NotOneHead(files) =>
      HeadsAreChildless(revs);
      ListedExactly(files, revs, (r: Revision) => IsChildless(revs, r));
    case WrongPrefix(name, prefix, id) => OnePrefix(name, prefix);
    case _ =>
  }

  lemma OnePrefix(name: string, prefix: string)
    ensures prefix == Prefix(name) <==>
            prefix <= name && '_' !in prefix && (prefix == name || name[|prefix|] == '_')
  {
    var p := Prefix(name);
    if prefix <= name && '_' !in prefix && (prefix == name || name[|prefix|] == '_') {
      forall i | 0 <= i < |prefix| ensures name[i] != '_' {
        assert prefix[i] in prefix;
      }
      forall i | 0 <= i < |p| ensures name[i] != '_' {
        assert p[i] in p;
      }
      assert |p| == |prefix|;
      assert p == name[..|p|] && prefix == name[..|p|];
    }
  }

  // ---------- The guard ----------

  /** Groups the files by revision id. */
  method GroupById(revs: seq<Revision>) returns (byRevision: map<string, seq<Revision>>)
    ensures forall id :: id in byRevision <==> Claiming(revs, id) != []
    ensures forall id :: id in byRevision ==> byRevision[id] == Claiming(revs, id)
  {
    byRevision := map[];
    for k := 0 to |revs|
      invariant forall id :: id in byRevision <==> Claiming(revs[..k], id) != []
      invariant forall id :: id in byRevision ==> byRevision[id] == Claiming(revs[..k], id)
    {
      var rev := revs[k];
      forall id ensures Claiming(revs[..k + 1], id) ==
                          Claiming(revs[..k], id) + if rev.id == id then [rev] else [] {
        assert revs[..k + 1] == revs[..k] + [rev];
        FilterAppend(revs[..k], rev, (r: Revision) => r.id == id);
      }
      byRevision := byRevision[rev.id := (if rev.id in byRevision then byRevision[rev.id] else []) + [rev]];
    }
    assert revs[..|revs|] == revs;
  }

  lemma {:induction false} FilterAppend(revs: seq<Revision>, last: Revision, keep: Revision -> bool)
    ensures Filter(revs + [last], keep) == Filter(revs, keep) + if keep(last) then [last] else []
  {
    if revs != [] {
      assert (revs + [last])[1..] == revs[1..] + [last];
      FilterAppend(revs[1..], last, keep);
    }
  }

  /** The guard itself: the report holds exactly the problems the files have. */
  method Check(revs: seq<Revision>, unparsed: seq<string>) returns (errors: seq<Problem>)
    ensures forall p :: p in errors <==> IsProblem(p, revs, unparsed)
    ensures ParentsNamed(revs) ==> (errors == [] <==> unparsed == [] && revs != [] && Sound(revs))
  {
    if ParentsNamed(revs) {
      NothingToReport(revs, unparsed);
    }
    var unread := ReportUnparsed(unparsed);
    if revs == [] {
      errors := unread + [NoFiles];
      assert NoFiles in errors;
      return;
    }
    var byRevision := GroupById(revs);
    var clashes := ReportClashes(revs, byRevision);
    var missing := ReportMissingParents(revs, byRevision);
    var counts := ReportCounts(revs);
    var prefixes := ReportPrefixes(revs);
    errors := unread + clashes + missing + counts + prefixes;
    forall p ensures p in errors <==> IsProblem(p, revs, unparsed) {
      assert p in errors <==> p in unread || p in clashes || p in missing || p in counts || p in prefixes;
    }
    assert errors == [] <==> forall p :: p !in errors by {
      assert errors != [] ==> errors[0] in errors;
    }
  }

  method ReportUnparsed(unparsed: seq<string>) returns (errors: seq<Problem>)
    ensures forall p :: p in errors <==> p.Unparsed? && p.message in unparsed
  {
    errors := [];
    for k := 0 to |unparsed|
      invariant forall p :: p in errors <==> p.Unparsed? && p.message in unparsed[..k]
    {
      assert unparsed[..k + 1] == unparsed[..k] + [unparsed[k]];
      errors := errors + [Unparsed(unparsed[k])];
    }
    assert unparsed[..|unparsed|] == unparsed;
  }

  method ReportCounts(revs: seq<Revision>) returns (errors: seq<Problem>)
    requires revs != []
    ensures forall p :: p in errors <==> (p.NotOneBase? || p.NotOneHead?) && IsProblem(p, revs, [])
  {
    errors := [];
    var bases := Bases(revs);
    if |bases| != 1 {
      errors := errors + [NotOneBase(Names(bases))];
    }
    var heads := Heads(revs);
    if |heads| != 1 {
      errors := errors + [NotOneHead(Names(heads))];
    }
  }

  method ReportClashes(revs: seq<Revision>, byRevision: map<string, seq<Revision>>) returns (errors: seq<Problem>)
    requires forall id :: id in byRevision <==> Claiming(revs, id) != []
    requires forall id :: id in byRevision ==> byRevision[id] == Claiming(revs, id)
    ensures forall p :: p in errors <==> p.ClaimedTwice? && IsProblem(p, revs, [])
  {
    errors := [];
    var ids := byRevision.Keys;
    while ids != {}
      invariant ids <= byRevision.Keys
      invariant forall p :: p in errors <==>
                  p.ClaimedTwice? && IsProblem(p, revs, []) && p.id !in ids
      decreases ids
    {
      var id :| id in ids;
      if |byRevision[id]| > 1 {
        errors := errors + [ClaimedTwice(id, Names(byRevision[id]))];
      }
      ids := ids - {id};
    }
  }

  method ReportMissingParents(revs: seq<Revision>, byRevision: map<string, seq<Revision>>)
    returns (errors: seq<Problem>)
    requires forall id :: id in byRevision <==> Claiming(revs, id) != []
    ensures forall p :: p in errors <==> p.MissingParent? && IsProblem(p, revs, [])
  {
    errors := [];
    for k := 0 to |revs|
      invariant forall p :: p in errors <==> p.MissingParent? && exists r ::
                  r in revs[..k] && r.name == p.name && r.down == Some(p.down) && Claiming(revs, p.down) == []
    {
      assert revs[..k + 1] == revs[..k] + [revs[k]];
      if revs[k].down.Some? && revs[k].down.value !in byRevision {
        errors := errors + [MissingParent(revs[k].name, revs[k].down.value)];
      }
    }
    assert revs[..|revs|] == revs;
  }

  method ReportPrefixes(revs: seq<Revision>) returns (errors: seq<Problem>)
    ensures forall p :: p in errors <==> p.WrongPrefix? && IsProblem(p, revs, [])
  {
    errors := [];
    for k := 0 to |revs|
      invariant forall p :: p in errors <==> p.WrongPrefix? && exists r ::
                  r in revs[..k] && r.name == p.name && r.id == p.id && p.prefix == Prefix(p.name) && p.prefix != p.id
    {
      assert revs[..k + 1] == revs[..k] + [revs[k]];
      var prefix := Prefix(revs[k].name);
      if prefix != revs[k].id {
        errors := errors + [WrongPrefix(revs[k].name, prefix, revs[k].id)];
      }
    }
    assert revs[..|revs|] == revs;
  }
}
