/** The leaderboard: sort all loaded scores, keep the first record of each user, sort again. */
module Leaderboard {
  import opened Bytes
  import opened Scores

  // ---------- the order of names ----------

  /** The sign of `strcmp`: bytes compared as unsigned characters. */
  function Strcmp(a: Bytes, b: Bytes): int {
    if a == [] && b == [] then 0
    else if a == [] then -1
    else if b == [] then 1
    else if a[0] < b[0] then -1
    else if a[0] > b[0] then 1
    else Strcmp(a[1..], b[1..])
  }

  predicate Before(a: Bytes, b: Bytes) {
    Strcmp(a, b) < 0
  }

  lemma {:induction false} StrcmpEqual(a: Bytes, b: Bytes)
    ensures Strcmp(a, b) == 0 <==> a == b
  {
    if a != [] && b != [] {
      StrcmpEqual(a[1..], b[1..]);
      assert a == [a[0]] + a[1..] && b == [b[0]] + b[1..];
    }
  }

  lemma {:induction false} StrcmpFlips(a: Bytes, b: Bytes)
    ensures Strcmp(b, a) == -Strcmp(a, b)
  {
    if a != [] && b != [] { StrcmpFlips(a[1..], b[1..]); }
  }

  lemma {:induction false} StrcmpTransitive(a: Bytes, b: Bytes, c: Bytes)
    requires Strcmp(a, b) <= 0 && Strcmp(b, c) <= 0
    ensures Strcmp(a, c) <= 0
    ensures Strcmp(a, c) == 0 ==> Strcmp(a, b) == 0 && Strcmp(b, c) == 0
  {
    if a != [] && b != [] && c != [] && a[0] == b[0] == c[0] { StrcmpTransitive(a[1..], b[1..], c[1..]); }
  }

  /** The two agree up to k, where a ends or has the smaller byte. */
  predicate SmallerAt(a: Bytes, b: Bytes, k: nat) {
    && k <= |a| && k < |b| && a[..k] == b[..k]
    && (k == |a| || a[k] < b[k])
  }

  lemma SmallerTails(a: Bytes, b: Bytes, k: nat)
    requires a != [] && b != [] && a[0] == b[0]
    ensures SmallerAt(a, b, k + 1) <==> SmallerAt(a[1..], b[1..], k)
  {
    if k < |a| && k + 1 < |b| {
      assert a[..k + 1] == [a[0]] + a[1..][..k] && b[..k + 1] == [b[0]] + b[1..][..k];
    }
  }

  /** Which order it is: that of a dictionary, by byte values. */
  lemma {:induction false} BeforeIff(a: Bytes, b: Bytes)
    ensures Before(a, b) <==> exists k: nat :: SmallerAt(a, b, k)
  {
    forall k: nat | SmallerAt(a, b, k) && k > 0 ensures a != [] && a[0] == b[0] {
      assert a[..k][0] == b[..k][0];
    }
    if a != [] && b != [] && a[0] == b[0] {
      BeforeIff(a[1..], b[1..]);
      if k: nat :| SmallerAt(a[1..], b[1..], k) {
        SmallerTails(a, b, k);
        assert SmallerAt(a, b, k + 1);
      }
      if k: nat :| SmallerAt(a, b, k) {
        if k > 0 { SmallerTails(a, b, k - 1); }
      }
    } else if Before(a, b) {
      assert SmallerAt(a, b, 0);
    }
  }

  // ---------- the two comparators ----------

  datatype Key = UserThenBest | BestFirst

  /** `compare_score_records_for_user_best` and `compare_leaderboard_entries_final`. */
  function Compare(key: Key, a: Score, b: Score): int {
    if key == UserThenBest && Strcmp(a.name, b.name) != 0 then Strcmp(a.name, b.name)
    else if b.score > a.score then 1
    else if b.score < a.score then -1
    else 0
  }

  predicate Leq(key: Key, a: Score, b: Score) {
    Compare(key, a, b) <= 0
  }

  lemma LeqTotal(key: Key, a: Score, b: Score)
    ensures Leq(key, a, b) || Leq(key, b, a)
    ensures Compare(key, a, b) > 0 ==> Leq(key, b, a)
  {
    StrcmpFlips(a.name, b.name);
  }

  lemma LeqTransitive(key: Key, a: Score, b: Score, c: Score)
    requires Leq(key, a, b) && Leq(key, b, c)
    ensures Leq(key, a, c)
  {
    if key == UserThenBest {
      StrcmpTransitive(a.name, b.name, c.name);
      StrcmpEqual(a.name, b.name);
      StrcmpEqual(b.name, c.name);
    }
  }

  // ---------- sorting ----------

  predicate Sorted(key: Key, s: seq<Score>) {
    forall i, j :: 0 <= i < j < |s| ==> Leq(key, s[i], s[j])
  }

  lemma Reassembled(a: seq<Score>, b: seq<Score>, i: nat, n: nat)
    requires i <= n <= |a| == |b| && multiset(a[..i]) == multiset(b[..i]) && a[i..] == b[i..]
    ensures multiset(a[..n]) == multiset(b[..n]) && a[n..] == b[n..]
  {
    assert a[..n] == a[..i] + a[i..][..n - i] && b[..n] == b[..i] + b[i..][..n - i];
    assert a[n..] == a[i..][n - i..] && b[n..] == b[i..][n - i..];
  }

  /** What `qsort` promises (section 7.20.5.2 of ISO/IEC 9899:1999): the same elements in order; the order of elements
      that compare equal is unspecified, so nothing is promised about it. */
  method Qsort(key: Key, a: array<Score>, n: nat)
    requires n <= a.Length
    modifies a
    ensures Sorted(key, a[..n]) && multiset(a[..n]) == multiset(old(a[..n]))
    ensures a[n..] == old(a[n..])
  {
    var i := 0;
    while i < n
      invariant i <= n
      invariant Sorted(key, a[..i]) && multiset(a[..n]) == multiset(old(a[..n])) && a[n..] == old(a[n..])
    {
      ghost var was := a[..];
      SinkLast(key, a, i);
      Reassembled(was, a[..], i + 1, n);
      assert a[..n] == a[..][..n] && a[n..] == a[..][n..];
      i := i + 1;
    }
  }

  /** In order, but for the element at j, which may be too far right. */
  predicate SortedBut(key: Key, s: seq<Score>, j: nat) {
    forall p, q :: 0 <= p < q < |s| && q != j ==> Leq(key, s[p], s[q])
  }

  function Swapped(s: seq<Score>, j: nat): seq<Score>
    requires 0 < j < |s|
  {
    s[j - 1 := s[j]][j := s[j - 1]]
  }

  lemma SwapKeepsOrder(key: Key, s: seq<Score>, j: nat)
    requires 0 < j < |s| && SortedBut(key, s, j) && Compare(key, s[j - 1], s[j]) > 0
    ensures SortedBut(key, Swapped(s, j), j - 1) && multiset(Swapped(s, j)) == multiset(s)
  {
    LeqTotal(key, s[j - 1], s[j]);
  }

  lemma SunkIsSorted(key: Key, s: seq<Score>, j: nat)
    requires j < |s| && SortedBut(key, s, j) && (j > 0 ==> Leq(key, s[j - 1], s[j]))
    ensures Sorted(key, s)
  {
    forall p | 0 <= p < j ensures Leq(key, s[p], s[j]) {
      if p < j - 1 { LeqTransitive(key, s[p], s[j - 1], s[j]); }
    }
  }

  /** Moves a[i] to its place among the sorted a[..i]. */
  method SinkLast(key: Key, a: array<Score>, i: nat)
    requires i < a.Length && Sorted(key, a[..i])
    modifies a
    ensures Sorted(key, a[..i + 1]) && multiset(a[..i + 1]) == multiset(old(a[..i + 1]))
    ensures a[i + 1..] == old(a[i + 1..])
  {
    var j := i;
    ghost var s := a[..i + 1];
    assert a[..i] == s[..i];
    while j > 0 && Compare(key, a[j - 1], a[j]) > 0
      invariant 0 <= j <= i && s == a[..i + 1] && SortedBut(key, s, j) && multiset(s) == multiset(old(a[..i + 1]))
      invariant a[i + 1..] == old(a[i + 1..])
    {
      SwapKeepsOrder(key, s, j);
      a[j - 1], a[j] := a[j], a[j - 1];
      s, j := Swapped(s, j), j - 1;
    }
    SunkIsSorted(key, s, j);
  }

  // ---------- keeping one record for each user ----------

  /** The grouping loop from one record on: `got` is kept, `last` is last_processed_user. */
  function Group(got: seq<Score>, s: seq<Score>, last: Bytes, max: nat): seq<Score>
    decreases |s|
  {
    if s == [] then got
    else if s[0].name != last && |got| < max then Group(got + [s[0]], s[1..], s[0].name, max)
    else Group(got, s[1..], last, max)
  }

  // ---------- what the result means ----------

  /** e is the best record of its user. */
  predicate Best(s: seq<Score>, e: Score) {
    e in s && forall x :: x in s && x.name == e.name ==> x.score <= e.score
  }

  predicate Listed(r: seq<Score>, name: Bytes) {
    exists i :: 0 <= i < |r| && r[i].name == name
  }

  predicate DistinctNames(r: seq<Score>) {
    forall i, j :: 0 <= i < j < |r| ==> r[i].name != r[j].name
  }

  predicate Descending(r: seq<Score>) {
    forall i, j :: 0 <= i < j < |r| ==> r[i].score >= r[j].score
  }

  lemma SortedDescends(r: seq<Score>)
    requires Sorted(BestFirst, r)
    ensures Descending(r)
  {
    forall i, j | 0 <= i < j < |r| ensures r[i].score >= r[j].score {
      assert Leq(BestFirst, r[i], r[j]);
    }
  }

  /** Distinct named users with their best scores, best first; a user left out comes after all the listed ones
      alphabetically, and only when the list is full. */
  predicate IsLeaderboard(s: seq<Score>, r: seq<Score>, max: nat) {
    && Descending(r)
    && IsSelection(s, r, max)
  }

  predicate IsSelection(s: seq<Score>, r: seq<Score>, max: nat) {
    && |r| <= max
    && DistinctNames(r)
    && (forall e :: e in r ==> e.name != [] && Best(s, e))
    && (forall x :: x in s && x.name != [] ==> Listed(r, x.name) || Crowded(r, x.name, max))
  }

  predicate Crowded(r: seq<Score>, name: Bytes, max: nat) {
    |r| == max && forall e :: e in r ==> Before(e.name, name)
  }

  predicate Ascending(g: seq<Score>) {
    forall i, j :: 0 <= i < j < |g| ==> Before(g[i].name, g[j].name)
  }

  // ---------- the grouping loop keeps the first users' best records ----------

  /** The records the grouping loop still adds, when it has room for `room` more. */
  function Firsts(s: seq<Score>, last: Bytes, room: nat): (g: seq<Score>)
    ensures |g| <= room
  {
    if s == [] then []
    else if s[0].name != last && room > 0 then [s[0]] + Firsts(s[1..], s[0].name, room - 1)
    else Firsts(s[1..], last, room)
  }

  lemma {:induction false} GroupAddsFirsts(got: seq<Score>, s: seq<Score>, last: Bytes, max: nat, room: nat)
    requires |got| + room == max
    ensures Group(got, s, last, max) == got + Firsts(s, last, room)
    decreases |s|
  {
    if s != [] {
      if s[0].name != last && room > 0 {
        GroupAddsFirsts(got + [s[0]], s[1..], s[0].name, max, room - 1);
      } else {
        GroupAddsFirsts(got, s[1..], last, max, room);
      }
    }
  }

  predicate NoneBefore(s: seq<Score>, name: Bytes) {
    forall x :: x in s ==> Strcmp(name, x.name) <= 0
  }

  lemma HeadIsFirst(s: seq<Score>)
    requires s != [] && Sorted(UserThenBest, s)
    ensures Sorted(UserThenBest, s[1..]) && NoneBefore(s[1..], s[0].name) && Best(s, s[0])
  {
    forall x | x in s[1..]
      ensures Strcmp(s[0].name, x.name) <= 0 && (x.name == s[0].name ==> x.score <= s[0].score)
    {
      var j :| 0 <= j < |s[1..]| && s[1..][j] == x;
      assert Leq(UserThenBest, s[0], s[j + 1]);
      StrcmpEqual(x.name, x.name);
    }
    assert s == [s[0]] + s[1..];
  }

  lemma BeforeTrans(a: Bytes, b: Bytes, c: Bytes)
    requires Before(a, b) && Strcmp(b, c) <= 0
    ensures Before(a, c) && a != c
  {
    StrcmpTransitive(a, b, c);
    StrcmpEqual(a, a);
  }

  /** What the grouping loop keeps of sorted records. */
  ghost predicate KeepsFirst(s: seq<Score>, g: seq<Score>, last: Bytes, room: nat) {
    && |g| <= room
    && Ascending(g)
    && (forall e :: e in g ==> Before(last, e.name) && Best(s, e))
    && (forall x :: x in s && Before(last, x.name) ==> Listed(g, x.name) || Crowded(g, x.name, room))
  }

  lemma {:induction false} FirstsMeaning(s: seq<Score>, last: Bytes, room: nat)
    requires Sorted(UserThenBest, s) && NoneBefore(s, last)
    ensures KeepsFirst(s, Firsts(s, last, room), last, room)
  {
    if s != [] {
      HeadIsFirst(s);
      if s[0].name != last && room > 0 {
        FirstsMeaning(s[1..], s[0].name, room - 1);
        KeepHead(s, Firsts(s[1..], s[0].name, room - 1), last, room);
      } else {
        FirstsMeaning(s[1..], last, room);
        SkipHead(s, Firsts(s[1..], last, room), last, room);
      }
    }
  }

  lemma KeepHead(s: seq<Score>, g: seq<Score>, last: Bytes, room: nat)
    requires s != [] && room > 0 && Sorted(UserThenBest, s) && s[0].name != last && NoneBefore(s, last)
    requires KeepsFirst(s[1..], g, s[0].name, room - 1)
    ensures KeepsFirst(s, [s[0]] + g, last, room)
  {
    var h, r := s[0], [s[0]] + g;
    assert h in s && Before(last, h.name) by { StrcmpEqual(last, h.name); }
    forall e | e in r ensures Before(last, e.name) && Best(s, e) {
      if e == h { HeadIsFirst(s); } else { KeptAfterHead(s, g, last, room, e); }
    }
    forall x | x in s && Before(last, x.name) ensures Listed(r, x.name) || Crowded(r, x.name, room) {
      if x.name == h.name {
        assert r[0].name == x.name;
      } else {
        AfterHead(s, g, room, x);
      }
    }
    forall i | 0 < i < |r| ensures Before(r[0].name, r[i].name) {
      assert r[i] == g[i - 1] && g[i - 1] in g;
    }
  }

  lemma KeptAfterHead(s: seq<Score>, g: seq<Score>, last: Bytes, room: nat, e: Score)
    requires s != [] && room > 0 && e in g && Before(last, s[0].name)
    requires KeepsFirst(s[1..], g, s[0].name, room - 1)
    ensures Before(last, e.name) && Best(s, e)
  {
    BeforeTrans(last, s[0].name, e.name);
    StrcmpEqual(s[0].name, e.name);
    BestInMore(s, e);
  }

  lemma AfterHead(s: seq<Score>, g: seq<Score>, room: nat, x: Score)
    requires s != [] && room > 0 && Sorted(UserThenBest, s) && x in s && x.name != s[0].name
    requires KeepsFirst(s[1..], g, s[0].name, room - 1)
    ensures Listed([s[0]] + g, x.name) || Crowded([s[0]] + g, x.name, room)
  {
    var r := [s[0]] + g;
    HeadIsFirst(s);
    assert s == [s[0]] + s[1..];
    StrcmpEqual(s[0].name, x.name);
    if Listed(g, x.name) {
      var i :| 0 <= i < |g| && g[i].name == x.name;
      assert r[i + 1].name == x.name;
    } else {
      assert Crowded(g, x.name, room - 1);
    }
  }

  lemma SkipHead(s: seq<Score>, g: seq<Score>, last: Bytes, room: nat)
    requires s != [] && (s[0].name == last || room == 0)
    requires KeepsFirst(s[1..], g, last, room)
    ensures KeepsFirst(s, g, last, room)
  {
    StrcmpEqual(last, last);
    forall e | e in g ensures Best(s, e) {
      BestInMore(s, e);
    }
  }

  lemma BestInMore(s: seq<Score>, e: Score)
    requires s != [] && Best(s[1..], e) && s[0].name != e.name
    ensures Best(s, e)
  {
    assert s == [s[0]] + s[1..];
  }

  // ---------- a permutation of what is kept ----------

  lemma SameElements(a: seq<Score>, b: seq<Score>)
    requires multiset(a) == multiset(b)
    ensures |a| == |b| && forall x :: x in a <==> x in b
  {
    assert |multiset(a)| == |multiset(b)|;
    forall x ensures x in a <==> x in b {
      assert x in a <==> x in multiset(a);
      assert x in b <==> x in multiset(b);
    }
  }

  lemma {:induction false} OnceInDistinct(g: seq<Score>, e: Score)
    requires DistinctNames(g)
    ensures multiset(g)[e] <= 1
  {
    if g != [] {
      OnceInDistinct(g[1..], e);
      assert g == [g[0]] + g[1..];
    }
  }

  lemma TwiceIn(r: seq<Score>, i: nat, j: nat)
    requires i < j < |r| && r[i] == r[j]
    ensures multiset(r)[r[i]] >= 2
  {
    assert r == r[..j] + r[j..];
    assert r[i] == r[..j][i] && r[i] == r[j..][0];
    assert multiset(r[..j])[r[i]] >= 1 && multiset(r[j..])[r[i]] >= 1;
  }

  lemma PermutedDistinct(g: seq<Score>, r: seq<Score>)
    requires multiset(g) == multiset(r) && DistinctNames(g)
    ensures DistinctNames(r)
  {
    SameElements(g, r);
    forall i, j | 0 <= i < j < |r| ensures r[i].name != r[j].name {
      assert r[i] in r && r[j] in r;
      if r[i].name == r[j].name {
        TwiceIn(r, i, j);
        OnceInDistinct(g, r[i]);
      }
    }
  }

  lemma PermutedSelection(s: seq<Score>, t: seq<Score>, g: seq<Score>, r: seq<Score>, max: nat)
    requires multiset(s) == multiset(t) && multiset(g) == multiset(r) && IsSelection(s, g, max)
    ensures IsSelection(t, r, max)
  {
    SameElements(s, t);
    SameElements(g, r);
    PermutedDistinct(g, r);
    forall e | e in r ensures e.name != [] && Best(t, e) {
      assert e in g;
      assert Best(s, e);
    }
    forall x | x in t && x.name != [] ensures Listed(r, x.name) || Crowded(r, x.name, max) {
      if Listed(g, x.name) {
        var i :| 0 <= i < |g| && g[i].name == x.name;
        assert g[i] in r;
      }
    }
  }

  lemma KeptIsSelection(t: seq<Score>, max: nat)
    requires Sorted(UserThenBest, t)
    ensures IsSelection(t, Group([], t, [], max), max)
  {
    var g := Firsts(t, [], max);
    GroupAddsFirsts([], t, [], max, max);
    assert [] + g == g;
    FirstsMeaning(t, [], max);
    forall i, j | 0 <= i < j < |g| ensures g[i].name != g[j].name {
      StrcmpEqual(g[i].name, g[j].name);
    }
    forall x | x in t && x.name != [] ensures Before([], x.name) {
    }
  }

  /** The grouping loop: copies the first record of each run of equal names. */
  method KeepFirsts(all: array<Score>, loaded: nat, entries: array<Score>, max: nat) returns (count: nat)
    requires loaded <= all.Length && max <= entries.Length && all != entries
    modifies entries
    ensures count <= max && entries[..count] == Group([], all[..loaded], [], max)
    ensures entries[count..] == old(entries[count..])
  {
    count := 0;
    var last: Bytes := [];
    ghost var got: seq<Score> := [];
    var i := 0;
    assert all[..loaded][0..] == all[..loaded];
    while i < loaded
      invariant i <= loaded && count <= max && got == entries[..count]
      invariant forall k :: count <= k < entries.Length ==> entries[k] == old(entries[k])
      invariant Group(got, all[..loaded][i..], last, max) == Group([], all[..loaded], [], max)
    {
      assert all[..loaded][i..][1..] == all[..loaded][i + 1..];
      if all[i].name != last && count < max {
        entries[count] := all[i];
        count, got, last := count + 1, got + [all[i]], all[i].name;
      }
      i := i + 1;
    }
  }

  /** `get_leaderboard_impl`; `io` says whether the score file can be read. */
  method GetLeaderboard(file: ScoreFile, io: bool, entries: array<Score>, max: nat) returns (count: int)
    requires max <= entries.Length
    modifies entries
    ensures !io ==> count == -1 && entries[..] == old(entries[..])
    ensures io ==> 0 <= count <= max && IsLeaderboard(Load(file.contents, MAX_TOTAL_SCORES), entries[..count], max)
    ensures io ==> entries[count..] == old(entries[count..])
  {
    var all := new Score[MAX_TOTAL_SCORES](_ => Score([], 0));
    var loaded := file.LoadAll(all, io);
    if loaded <= 0 {
      return if loaded == -1 then -1 else 0;
    }
    ghost var scores := all[..loaded];
    Qsort(UserThenBest, all, loaded);
    ghost var sorted := all[..loaded];
    count := KeepFirsts(all, loaded, entries, max);
    ghost var kept := entries[..count];
    if count > 0 { Qsort(BestFirst, entries, count); }
    KeptIsSelection(sorted, max);
    PermutedSelection(sorted, scores, kept, entries[..count], max);
    SortedDescends(entries[..count]);
  }
}
