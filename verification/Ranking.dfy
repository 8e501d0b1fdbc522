/** What the leaderboard shows, for all files, all ties and all orders of submission. */
module Ranking {
  import opened Bytes
  import opened Lines
  import opened RecordFiles
  import opened Scores
  import opened Leaderboard

  function Users(s: seq<Score>): set<Bytes> {
    set x | x in s && x.name != [] :: x.name
  }

  function UsersBefore(s: seq<Score>, name: Bytes): set<Bytes> {
    set u | u in Users(s) && Before(u, name)
  }

  /** The users whose names come first in byte order. */
  ghost function UsersSmaller(s: seq<Score>, name: Bytes): set<Bytes> {
    set u | u in Users(s) && exists k: nat :: SmallerAt(u, name, k)
  }

  // ---------- sets of names ----------

  function Names(r: seq<Score>): set<Bytes> {
    set x | x in r :: x.name
  }

  lemma {:induction false} NamesCount(r: seq<Score>)
    requires DistinctNames(r)
    ensures |Names(r)| == |r|
  {
    if r != [] {
      NamesCount(r[1..]);
      assert r == [r[0]] + r[1..];
      forall x | x in r[1..] ensures x.name != r[0].name {
        var j :| 0 <= j < |r[1..]| && r[1..][j] == x;
        assert r[j + 1] == x;
      }
      assert Names(r) == Names(r[1..]) + {r[0].name};
    }
  }

  lemma {:induction false} SubsetCount<T>(a: set<T>, b: set<T>)
    requires a <= b
    ensures |a| <= |b|
  {
    assert b == a + (b - a);
  }

  lemma ListedName(r: seq<Score>, u: Bytes)
    ensures Listed(r, u) <==> u in Names(r)
  {
    if u in Names(r) {
      var x :| x in r && x.name == u;
      var i :| 0 <= i < |r| && r[i] == x;
    }
  }

  // ---------- who is listed ----------

  /** A user is listed exactly when fewer than `max` users come before it in byte order. */
  lemma ListedIff(s: seq<Score>, r: seq<Score>, max: nat, u: Bytes)
    requires IsLeaderboard(s, r, max)
    ensures Listed(r, u) <==> u in Users(s) && |UsersSmaller(s, u)| < max
  {
    ListedIfEarly(s, r, max, u);
    forall v ensures Before(v, u) <==> exists k: nat :: SmallerAt(v, u, k) {
      BeforeIff(v, u);
    }
    assert UsersSmaller(s, u) == UsersBefore(s, u);
  }

  lemma ListedIfEarly(s: seq<Score>, r: seq<Score>, max: nat, u: Bytes)
    requires IsLeaderboard(s, r, max)
    ensures Listed(r, u) <==> u in Users(s) && |UsersBefore(s, u)| < max
  {
    NamesCount(r);
    if Listed(r, u) {
      ListedIsEarly(s, r, max, u);
    } else if u in Users(s) {
      var x :| x in s && x.name != [] && x.name == u;
      forall v | v in Names(r) ensures v in UsersBefore(s, u) {
        var e :| e in r && e.name == v;
        assert Best(s, e);
      }
      SubsetCount(Names(r), UsersBefore(s, u));
    }
  }

  lemma ListedIsEarly(s: seq<Score>, r: seq<Score>, max: nat, u: Bytes)
    requires IsLeaderboard(s, r, max) && Listed(r, u)
    ensures u in Users(s) && |UsersBefore(s, u)| < max
  {
    NamesCount(r);
    ListedName(r, u);
    var e :| e in r && e.name == u;
    assert Best(s, e);
    StrcmpEqual(u, u);
    forall v | v in UsersBefore(s, u) ensures v in Names(r) - {u} {
      var x :| x in s && x.name != [] && x.name == v;
      StrcmpFlips(u, v);
      ListedName(r, v);
    }
    SubsetCount(UsersBefore(s, u), Names(r) - {u});
  }

  /** The list is as long as it can be: the smaller of `max` and the number of named users. */
  lemma SizeIsMin(s: seq<Score>, r: seq<Score>, max: nat)
    requires IsLeaderboard(s, r, max)
    ensures |r| == if |Users(s)| < max then |Users(s)| else max
  {
    NamesCount(r);
    forall u | u in Names(r) ensures u in Users(s) {
      var e :| e in r && e.name == u;
      assert Best(s, e);
    }
    SubsetCount(Names(r), Users(s));
    if |r| < max {
      forall u | u in Users(s) ensures u in Names(r) {
        var x :| x in s && x.name != [] && x.name == u;
        ListedName(r, u);
      }
      SubsetCount(Users(s), Names(r));
    }
  }

  // ---------- the order of the score lines does not matter ----------

  lemma SameUsers(s: seq<Score>, t: seq<Score>)
    requires multiset(s) == multiset(t)
    ensures Users(s) == Users(t) && forall e :: Best(s, e) <==> Best(t, e)
  {
    SameElements(s, t);
  }

  lemma SameEntries(s: seq<Score>, t: seq<Score>, q: seq<Score>, r: seq<Score>, max: nat, e: Score)
    requires multiset(s) == multiset(t) && IsLeaderboard(s, q, max) && IsLeaderboard(t, r, max) && e in q
    ensures e in r
  {
    SameUsers(s, t);
    var i :| 0 <= i < |q| && q[i] == e;
    assert Listed(q, e.name);
    ListedIfEarly(s, q, max, e.name);
    assert UsersBefore(s, e.name) == UsersBefore(t, e.name);
    ListedIfEarly(t, r, max, e.name);
    var j :| 0 <= j < |r| && r[j].name == e.name;
    assert r[j] in r && Best(s, e) && Best(t, r[j]);
  }

  lemma NotBelow(q: seq<Score>, r: seq<Score>, i: nat)
    requires Descending(q) && Descending(r) && DistinctNames(q) && DistinctNames(r)
    requires i < |q| && i < |r| && forall e :: e in q ==> e in r
    ensures q[i].score <= r[i].score
  {
    if q[i].score > r[i].score {
      forall u | u in Names(q[..i + 1]) ensures u in Names(r[..i]) {
        var e :| e in q[..i + 1] && e.name == u;
        var k :| 0 <= k < |q[..i + 1]| && q[..i + 1][k] == e;
        assert e in q;
        var j :| 0 <= j < |r| && r[j] == e;
        assert r[..i][j] == e;
      }
      NamesCount(q[..i + 1]);
      NamesCount(r[..i]);
      SubsetCount(Names(q[..i + 1]), Names(r[..i]));
    }
  }

  /** The same entries, and the same score at every place. */
  predicate SameUpToTies(q: seq<Score>, r: seq<Score>) {
    multiset(q) == multiset(r) && |q| == |r| && forall i :: 0 <= i < |q| ==> q[i].score == r[i].score
  }

  /** Any two results for the same records in any order, however qsort breaks its ties, list the same entries
      and show the same scores from top to bottom: only entries with equal scores can change places. */
  lemma OrderIrrelevant(s: seq<Score>, t: seq<Score>, q: seq<Score>, r: seq<Score>, max: nat)
    requires multiset(s) == multiset(t) && IsLeaderboard(s, q, max) && IsLeaderboard(t, r, max)
    ensures SameUpToTies(q, r)
  {
    forall e ensures multiset(q)[e] == multiset(r)[e] {
      OnceInDistinct(q, e);
      OnceInDistinct(r, e);
      if e in q { SameEntries(s, t, q, r, max, e); }
      if e in r { SameEntries(t, s, r, q, max, e); }
      assert e in q <==> e in multiset(q);
      assert e in r <==> e in multiset(r);
    }
    SameElements(q, r);
    forall i | 0 <= i < |q| ensures q[i].score == r[i].score {
      NotBelow(q, r, i);
      NotBelow(r, q, i);
    }
  }

  // ---------- more records ----------

  /** Records added later never lower the score shown for a user who stays listed, and never bring back a user
      who had records and was not listed. */
  lemma AddedRecords(s: seq<Score>, more: seq<Score>, q: seq<Score>, r: seq<Score>, max: nat, e: Score)
    requires IsLeaderboard(s, q, max) && IsLeaderboard(s + more, r, max) && e in r && e.name in Users(s)
    ensures Listed(q, e.name)
    ensures forall d :: d in q && d.name == e.name ==> d.score <= e.score
  {
    var i :| 0 <= i < |r| && r[i] == e;
    assert Listed(r, e.name);
    ListedIfEarly(s + more, r, max, e.name);
    ListedIfEarly(s, q, max, e.name);
    SubsetCount(UsersBefore(s, e.name), UsersBefore(s + more, e.name));
    forall d | d in q && d.name == e.name ensures d.score <= e.score {
      assert Best(s, d) && Best(s + more, e);
      assert d in s + more;
    }
  }

  // ---------- when it is the true ranking ----------

  /** The list of the best users: nobody left out has a record above a listed score. */
  ghost predicate IsTop(s: seq<Score>, r: seq<Score>) {
    forall x, e :: x in s && x.name != [] && !Listed(r, x.name) && e in r ==> x.score <= e.score
  }

  lemma AllListed(s: seq<Score>, r: seq<Score>, max: nat)
    requires IsLeaderboard(s, r, max) && |Users(s)| <= max
    ensures forall x :: x in s && x.name != [] ==> Listed(r, x.name)
  {
    forall x | x in s && x.name != [] ensures Listed(r, x.name) {
      ListedIfEarly(s, r, max, x.name);
      StrcmpEqual(x.name, x.name);
      assert x.name in Users(s);
      SubsetCount(UsersBefore(s, x.name), Users(s) - {x.name});
    }
  }

  /** Every collection of records has a leaderboard. */
  lemma LeaderboardExists(s: seq<Score>, max: nat) returns (r: seq<Score>)
    ensures IsLeaderboard(s, r, max)
  {
    var t := SortedVersion(UserThenBest, s);
    var g := Group([], t, [], max);
    KeptIsSelection(t, max);
    r := SortedVersion(BestFirst, g);
    PermutedSelection(t, s, g, r, max);
    SortedDescends(r);
  }

  lemma {:induction false} SortedVersion(key: Key, s: seq<Score>) returns (t: seq<Score>)
    ensures Sorted(key, t) && multiset(t) == multiset(s)
  {
    if s == [] {
      t := [];
    } else {
      var u := SortedVersion(key, s[1..]);
      t := Inserted(key, s[0], u);
      assert s == [s[0]] + s[1..];
    }
  }

  lemma {:induction false} Inserted(key: Key, x: Score, s: seq<Score>) returns (t: seq<Score>)
    requires Sorted(key, s)
    ensures Sorted(key, t) && multiset(t) == multiset(s) + multiset{x}
  {
    if s == [] || Leq(key, x, s[0]) {
      t := [x] + s;
      forall i | 0 <= i < |s| ensures Leq(key, x, s[i]) {
        if i > 0 { LeqTransitive(key, x, s[0], s[i]); }
      }
    } else {
      LeqTotal(key, s[0], x);
      var u := Inserted(key, x, s[1..]);
      t := [s[0]] + u;
      assert s == [s[0]] + s[1..];
      forall i | 0 <= i < |u| ensures Leq(key, s[0], u[i]) {
        HeadLeads(key, s, x, u, i);
      }
    }
  }

  lemma HeadLeads(key: Key, s: seq<Score>, x: Score, u: seq<Score>, i: nat)
    requires s != [] && Sorted(key, s) && Leq(key, s[0], x) && i < |u|
    requires multiset(u) == multiset(s[1..]) + multiset{x}
    ensures Leq(key, s[0], u[i])
  {
    assert u[i] in multiset(u);
    if u[i] != x {
      assert u[i] in s[1..];
      var j :| 0 <= j < |s[1..]| && s[1..][j] == u[i];
      assert s[j + 1] == u[i];
    }
  }

  lemma {:induction false} LastName(names: set<Bytes>) returns (u: Bytes)
    requires names != {}
    ensures u in names && forall v :: v in names && v != u ==> Before(v, u)
    decreases |names|
  {
    u :| u in names;
    if names != {u} {
      var w := LastName(names - {u});
      StrcmpEqual(u, w);
      StrcmpFlips(u, w);
      if Before(u, w) {
        u := w;
      } else {
        forall v | v in names && v != u ensures Before(v, u) {
          StrcmpEqual(w, w);
          assert v in names - {u};
          StrcmpTransitive(v, w, u);
          StrcmpEqual(v, u);
        }
      }
    }
  }

  lemma {:induction false} ScoresFor(names: set<Bytes>, best: Bytes) returns (s: seq<Score>)
    requires [] !in names
    ensures Users(s) == names
    ensures forall x :: x in s ==> x.score == if x.name == best then 1 else 0
    decreases |names|
  {
    if names == {} {
      s := [];
    } else {
      var u :| u in names;
      var t := ScoresFor(names - {u}, best);
      s := [Score(u, if u == best then 1 else 0)] + t;
      assert Users(s) == Users(t) + {u};
    }
  }

  /** With more users than places, the alphabetically last one is left out, also if it alone has a score above 0. */
  lemma LastLeftOut(s: seq<Score>, r: seq<Score>, u: Bytes, max: nat)
    requires IsLeaderboard(s, r, max) && 0 < max < |Users(s)|
    requires u in Users(s) && forall v :: v in Users(s) && v != u ==> Before(v, u)
    requires forall x :: x in s ==> x.score == if x.name == u then 1 else 0
    ensures !IsTop(s, r)
  {
    StrcmpEqual(u, u);
    assert UsersBefore(s, u) == Users(s) - {u};
    ListedIfEarly(s, r, max, u);
    SizeIsMin(s, r, max);
    var e := r[0];
    assert e in r && Best(s, e) && Listed(r, e.name);
    var y :| y in s && y.name != [] && y.name == u;
    assert y.score > e.score;
  }

  /** With more users than places, the alphabetically last one can hold the best score and be left out. */
  lemma BestLeftOut(names: set<Bytes>, max: nat) returns (s: seq<Score>, r: seq<Score>)
    requires 0 < max < |names| && [] !in names
    ensures Users(s) == names && IsLeaderboard(s, r, max) && !IsTop(s, r)
  {
    var u := LastName(names);
    s := ScoresFor(names, u);
    r := LeaderboardExists(s, max);
    LastLeftOut(s, r, u, max);
  }

  ghost predicate AlwaysTop(names: set<Bytes>, max: nat) {
    forall s, r :: Users(s) == names && IsLeaderboard(s, r, max) ==> IsTop(s, r)
  }

  /** Of the records that were loaded, the list is the ranking of the best users, whatever their scores, if and only if
      there are no more users than places. */
  lemma TopIffFewUsers(names: set<Bytes>, max: nat)
    requires max > 0 && [] !in names
    ensures AlwaysTop(names, max) <==> |names| <= max
  {
    if |names| <= max {
      forall s, r | Users(s) == names && IsLeaderboard(s, r, max) ensures IsTop(s, r) {
        AllListed(s, r, max);
      }
    } else {
      var s, r := BestLeftOut(names, max);
    }
  }

  // ---------- from submissions to the list ----------

  /** What a score file made of these submissions loads as. */
  function Loaded(s: seq<Score>): seq<Score> {
    Load(Joined(PrintedAll(s)), MAX_TOTAL_SCORES)
  }

  /** The same well-formed submissions in two orders, at most 500 of them, give the same list up to ties. */
  lemma SubmissionOrder(s: seq<Score>, t: seq<Score>, max: nat)
    requires multiset(s) == multiset(t) && |s| <= 500 && AllWellFormed(s)
    ensures forall q, r :: IsLeaderboard(Loaded(s), q, max) && IsLeaderboard(Loaded(t), r, max) ==> SameUpToTies(q, r)
  {
    SameElements(s, t);
    forall i | 0 <= i < |t| ensures WellFormed(t[i]) {
      assert t[i] in t;
    }
    LoadPrinted(s, MAX_TOTAL_SCORES);
    LoadPrinted(t, MAX_TOTAL_SCORES);
    forall q, r | IsLeaderboard(s, q, max) && IsLeaderboard(t, r, max) ensures SameUpToTies(q, r) {
      OrderIrrelevant(s, t, q, r, max);
    }
  }

  /** Once 500 well-formed scores are in the file, no later submission can change what is loaded. */
  lemma LateSubmissionsIgnored(s: seq<Score>, more: seq<Score>)
    requires |s| >= 500 && AllWellFormed(s) && AllWellFormed(more)
    ensures Loaded(s + more) == Loaded(s)
  {
    LoadPrinted(s + more, MAX_TOTAL_SCORES);
    LoadPrinted(s, MAX_TOTAL_SCORES);
    assert Take(s + more, MAX_TOTAL_SCORES) == Take(s, MAX_TOTAL_SCORES);
  }

  // ---------- when the list is the truth about what was submitted ----------

  /** The list shows users with their best scores, and nobody left out has a better one. */
  ghost predicate IsTrue(s: seq<Score>, r: seq<Score>) {
    (forall e :: e in r ==> Best(s, e)) && IsTop(s, r)
  }

  /** Submissions under these names, in this order. */
  predicate SubmittedBy(s: seq<Score>, names: seq<Bytes>) {
    |s| == |names| && AllWellFormed(s) && forall i :: 0 <= i < |s| ==> s[i].name == names[i]
  }

  /** Whatever the scores, the list is the truth about all submissions. */
  ghost predicate AlwaysTrue(names: seq<Bytes>, max: nat) {
    forall s, r :: SubmittedBy(s, names) && IsLeaderboard(Loaded(s), r, max) ==> IsTrue(s, r)
  }

  function NameSet(names: seq<Bytes>): set<Bytes> {
    set n | n in names
  }

  predicate Submitters(names: seq<Bytes>) {
    forall i :: 0 <= i < |names| ==> names[i] != [] && CleanName(names[i])
  }

  lemma UsersOfSubmitted(s: seq<Score>, names: seq<Bytes>)
    requires SubmittedBy(s, names) && Submitters(names)
    ensures Users(s) == NameSet(names)
  {
    forall n | n in NameSet(names) ensures n in Users(s) {
      var i :| 0 <= i < |names| && names[i] == n;
      assert s[i] in s;
    }
  }

  lemma LoadedIs(s: seq<Score>)
    requires AllWellFormed(s)
    ensures Loaded(s) == Take(s, MAX_TOTAL_SCORES)
  {
    LoadPrinted(s, MAX_TOTAL_SCORES);
  }

  lemma FewAreTrue(names: seq<Bytes>, max: nat, s: seq<Score>, r: seq<Score>)
    requires Submitters(names) && |NameSet(names)| <= max && |names| <= MAX_TOTAL_SCORES
    requires SubmittedBy(s, names) && IsLeaderboard(Loaded(s), r, max)
    ensures IsTrue(s, r)
  {
    LoadedIs(s);
    UsersOfSubmitted(s, names);
    AllListed(s, r, max);
  }

  /** One point for the submissions that are marked, none for the others. */
  function Marked(names: seq<Bytes>, mark: int -> bool): (s: seq<Score>)
    ensures |s| == |names|
  {
    seq(|names|, i requires 0 <= i < |names| => Score(names[i], if mark(i) then 1 else 0))
  }

  lemma MarkedIsSubmitted(names: seq<Bytes>, mark: int -> bool)
    requires Submitters(names)
    ensures SubmittedBy(Marked(names, mark), names)
  {
  }

  /** More names than places: the last of them has the only points. */
  lemma ManyNamesAreFalse(names: seq<Bytes>, max: nat)
    requires Submitters(names) && 0 < max < |NameSet(names)| && |names| <= MAX_TOTAL_SCORES
    ensures !AlwaysTrue(names, max)
  {
    var u := LastName(NameSet(names));
    var s := Marked(names, i => 0 <= i < |names| && names[i] == u);
    MarkedIsSubmitted(names, i => 0 <= i < |names| && names[i] == u);
    LoadedIs(s);
    UsersOfSubmitted(s, names);
    var r := LeaderboardExists(s, max);
    LastLeftOut(s, r, u, max);
    assert SubmittedBy(s, names) && IsLeaderboard(Loaded(s), r, max) && !IsTrue(s, r);
  }

  /** A point that comes after the first 500 submissions is not seen. */
  lemma LatePointUnseen(s: seq<Score>, r: seq<Score>, max: nat)
    requires |s| > MAX_TOTAL_SCORES && max > 0 && AllWellFormed(s)
    requires forall i :: 0 <= i < |s| ==> s[i].name != [] && s[i].score == if i == MAX_TOTAL_SCORES then 1 else 0
    requires IsLeaderboard(Loaded(s), r, max)
    ensures !IsTrue(s, r)
  {
    LoadedIs(s);
    var t, late := Loaded(s), s[MAX_TOTAL_SCORES];
    SizeIsMin(t, r, max);
    assert t[0] in t && t[0].name in Users(t);
    assert r != [];
    var e := r[0];
    assert e in r && Best(t, e);
    var k :| 0 <= k < |t| && t[k] == e;
    assert e.score == 0 && late in s;
    if Listed(r, late.name) {
      var i :| 0 <= i < |r| && r[i].name == late.name;
      assert r[i] in r && Best(t, r[i]);
      var j :| 0 <= j < |t| && t[j] == r[i];
      assert r[i].score == 0;
    }
  }

  lemma ManySubmissionsAreFalse(names: seq<Bytes>, max: nat)
    requires Submitters(names) && max > 0 && |names| > MAX_TOTAL_SCORES
    ensures !AlwaysTrue(names, max)
  {
    var s := Marked(names, i => i == MAX_TOTAL_SCORES);
    MarkedIsSubmitted(names, i => i == MAX_TOTAL_SCORES);
    var r := LeaderboardExists(Loaded(s), max);
    LatePointUnseen(s, r, max);
    assert SubmittedBy(s, names) && IsLeaderboard(Loaded(s), r, max) && !IsTrue(s, r);
  }

  /** For these submitters, in this order: whatever they score, the list shows users with their best scores and leaves
      out nobody better, if and only if there are no more names than places and no more than 500 submissions. */
  lemma TrueIff(names: seq<Bytes>, max: nat)
    requires Submitters(names) && max > 0
    ensures AlwaysTrue(names, max) <==> |NameSet(names)| <= max && |names| <= 500
  {
    if |names| > MAX_TOTAL_SCORES {
      ManySubmissionsAreFalse(names, max);
    } else if |NameSet(names)| > max {
      ManyNamesAreFalse(names, max);
    } else {
      forall s, r | SubmittedBy(s, names) && IsLeaderboard(Loaded(s), r, max) ensures IsTrue(s, r) {
        FewAreTrue(names, max, s, r);
      }
    }
  }

  /** One user and ten places: after 500 times one point, nine points are not shown. */
  lemma BestScoreUnseen(a: Bytes, s: seq<Score>, r: seq<Score>)
    requires CleanName(a) && a != [] && |s| == 501 && s[500] == Score(a, 9)
    requires forall i :: 0 <= i < 500 ==> s[i] == Score(a, 1)
    requires IsLeaderboard(Loaded(s), r, 10)
    ensures r == [Score(a, 1)] && !Best(s, Score(a, 1))
  {
    LoadedIs(s);
    var t := Loaded(s);
    assert forall x :: x in t ==> x == Score(a, 1);
    assert t[0] in t && Users(t) == {a};
    SizeIsMin(t, r, 10);
    assert r[0] in r && Best(t, r[0]);
    assert s[500] in s;
  }
}
