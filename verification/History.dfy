/** The combination of two histories in scripts/bootstrap-import.mjs:271-291.

    A row's stamp is a string, empty when the row has none. localeCompare is a parameter: a strict
    total order on stamps, as it is on the ISO times and dates the updater writes. */
module History {

  datatype Row<T> = Row(stamp: string, data: T)

  type Order = (string, string) -> bool

  ghost predicate StrictTotal(before: Order) {
    && (forall a, b :: before(a, b) ==> !before(b, a))
    && (forall a, b, c :: before(a, b) && before(b, c) ==> before(a, c))
    && (forall a, b :: a == b || before(a, b) || before(b, a))
  }

  // ----- the map from stamp to row, in insertion order

  function Put<T>(m: seq<Row<T>>, r: Row<T>): (n: seq<Row<T>>)
    ensures n != []
  {
    if m == [] then [r]
    else if m[0].stamp == r.stamp then [r] + m[1..]
    else [m[0]] + Put(m[1..], r)
  }

  function Collected<T>(rows: seq<Row<T>>): seq<Row<T>> {
    if rows == [] then []
    else
      var (m, r) := (Collected(rows[..|rows| - 1]), rows[|rows| - 1]);
      if r.stamp == "" then m else Put(m, r)
  }

  ghost predicate OnePerStamp<T(!new)>(m: seq<Row<T>>) {
    forall i, j :: 0 <= i < j < |m| ==> m[i].stamp != m[j].stamp
  }

  lemma Cons<T(!new)>(x: Row<T>, m: seq<Row<T>>)
    requires OnePerStamp(m) && forall y :: y in m ==> y.stamp != x.stamp
    ensures OnePerStamp([x] + m)
  {
  }

  lemma HeadAndTail<T(!new)>(m: seq<Row<T>>)
    requires OnePerStamp(m) && m != []
    ensures m == [m[0]] + m[1..] && OnePerStamp(m[1..])
    ensures forall y :: y in m[1..] ==> y.stamp != m[0].stamp
  {
  }

  lemma {:induction false} PutReplaces<T(!new)>(m: seq<Row<T>>, r: Row<T>)
    requires OnePerStamp(m)
    ensures OnePerStamp(Put(m, r))
    ensures forall x :: x in Put(m, r) <==> x == r || (x in m && x.stamp != r.stamp)
  {
    if m == [] {
      assert OnePerStamp(Put(m, r));
    } else {
      hide OnePerStamp;
      HeadAndTail(m);
      if m[0].stamp == r.stamp {
        Cons(r, m[1..]);
      } else {
        PutReplaces(m[1..], r);
        Cons(m[0], Put(m[1..], r));
      }
    }
  }

  // The last row with a stamp is the one that counts.
  ghost predicate Latest<T(!new)>(rows: seq<Row<T>>, r: Row<T>) {
    exists i :: 0 <= i < |rows| && rows[i] == r && forall j :: i < j < |rows| ==> rows[j].stamp != r.stamp
  }

  lemma LatestGrows<T(!new)>(rows: seq<Row<T>>, last: Row<T>, r: Row<T>)
    ensures Latest(rows + [last], r) <==> r == last || (Latest(rows, r) && r.stamp != last.stamp)
  {
    var all := rows + [last];
    if Latest(all, r) && r != last {
      var i :| 0 <= i < |all| && all[i] == r && forall j :: i < j < |all| ==> all[j].stamp != r.stamp;
      assert all[|rows|] == last;
      assert rows[i] == r;
      assert forall j :: i < j < |rows| ==> rows[j] == all[j];
    }
    if Latest(rows, r) && r.stamp != last.stamp {
      var i :| 0 <= i < |rows| && rows[i] == r && forall j :: i < j < |rows| ==> rows[j].stamp != r.stamp;
      assert all[i] == r;
    }
    if r == last { assert all[|rows|] == r; }
  }

  lemma {:induction false} CollectedIs<T(!new)>(rows: seq<Row<T>>)
    ensures OnePerStamp(Collected(rows))
    ensures forall r :: r in Collected(rows) <==> r.stamp != "" && Latest(rows, r)
  {
    if rows != [] {
      var (init, last) := (rows[..|rows| - 1], rows[|rows| - 1]);
      CollectedIs(init);
      assert rows == init + [last];
      forall r ensures Latest(rows, r) <==> r == last || (Latest(init, r) && r.stamp != last.stamp) {
        LatestGrows(init, last, r);
      }
      if last.stamp != "" { PutReplaces(Collected(init), last); }
    }
  }

  // ----- sorting

  ghost predicate Increasing<T(!new)>(before: Order, s: seq<Row<T>>) {
    forall i, j :: 0 <= i < j < |s| ==> before(s[i].stamp, s[j].stamp)
  }

  function Insert<T>(before: Order, r: Row<T>, s: seq<Row<T>>): (t: seq<Row<T>>)
    ensures |t| == |s| + 1
  {
    if s == [] || before(r.stamp, s[0].stamp) then [r] + s else [s[0]] + Insert(before, r, s[1..])
  }

  function Sort<T>(before: Order, s: seq<Row<T>>): (t: seq<Row<T>>)
    ensures |t| == |s|
  {
    if s == [] then [] else Insert(before, s[0], Sort(before, s[1..]))
  }

  lemma {:induction false} InsertSorts<T(!new)>(before: Order, r: Row<T>, s: seq<Row<T>>)
    requires StrictTotal(before) && Increasing(before, s)
    requires forall x :: x in s ==> x.stamp != r.stamp
    ensures Increasing(before, Insert(before, r, s))
    ensures forall x :: x in Insert(before, r, s) <==> x == r || x in s
  {
    if s != [] {
      assert s == [s[0]] + s[1..];
      if before(r.stamp, s[0].stamp) {
        assert forall x :: x in s ==> before(r.stamp, x.stamp);
      } else {
        assert s[0] in s;
        InsertSorts(before, r, s[1..]);
        assert forall x :: x in Insert(before, r, s[1..]) ==> before(s[0].stamp, x.stamp);
      }
    }
  }

  lemma {:induction false} SortSorts<T(!new)>(before: Order, s: seq<Row<T>>)
    requires StrictTotal(before) && OnePerStamp(s)
    ensures Increasing(before, Sort(before, s))
    ensures forall x :: x in Sort(before, s) <==> x in s
  {
    hide StrictTotal;
    if s != [] {
      assert s == [s[0]] + s[1..];
      assert OnePerStamp(s[1..]);
      assert forall x :: x in s[1..] ==> x.stamp != s[0].stamp;
      SortSorts(before, s[1..]);
      InsertSorts(before, s[0], Sort(before, s[1..]));
    }
  }

  // ----- the combination

  // Array.prototype.slice(-cap)
  function SliceFromEnd<T>(s: seq<T>, cap: int): seq<T>
    requires cap != 0
  {
    if cap > 0 then (if |s| <= cap then s else s[|s| - cap..])
    else (if |s| <= -cap then [] else s[-cap..])
  }

  function All<T>(before: Order, theirs: seq<Row<T>>, mine: seq<Row<T>>): seq<Row<T>> {
    Sort(before, Collected(theirs + mine))
  }

  // The series of a node that both sides list; nothing changes when the other side has none.
  function Combined<T>(before: Order, theirs: seq<Row<T>>, mine: seq<Row<T>>, cap: int): seq<Row<T>>
    requires cap != 0
  {
    if theirs == [] then mine else SliceFromEnd(All(before, theirs, mine), cap)
  }

  // A window of 0 counts as none.
  function Cap(checks: bool, remoteWindow: int, localWindow: int): (cap: int)
    ensures cap != 0
  {
    if !checks then 90
    else if remoteWindow != 0 then remoteWindow
    else if localWindow != 0 then localWindow
    else 144
  }

  method Combine<T>(before: Order, theirs: seq<Row<T>>, mine: seq<Row<T>>, checks: bool, remoteWindow: int,
                    localWindow: int)
    returns (kept: seq<Row<T>>)
    ensures !checks ==> kept == Combined(before, theirs, mine, 90)
    ensures checks && remoteWindow != 0 ==> kept == Combined(before, theirs, mine, remoteWindow)
    ensures checks && remoteWindow == 0 && localWindow != 0 ==> kept == Combined(before, theirs, mine, localWindow)
    ensures checks && remoteWindow == 0 && localWindow == 0 ==> kept == Combined(before, theirs, mine, 144)
  {
    if |theirs| == 0 { return mine; }
    var byStamp: seq<Row<T>> := [];
    var rows := theirs + mine;
    for i := 0 to |rows|
      invariant byStamp == Collected(rows[..i])
    {
      assert rows[..i + 1][..i] == rows[..i];
      if rows[i].stamp != "" { byStamp := Put(byStamp, rows[i]); }
    }
    assert rows[..|rows|] == rows;
    var all := Sort(before, byStamp);
    kept := SliceFromEnd(all, Cap(checks, remoteWindow, localWindow));
  }

  // ----- what is kept

  // A row of the union: with a stamp, the local one if both sides have a row for its stamp.
  ghost predicate OfUnion<T(!new)>(theirs: seq<Row<T>>, mine: seq<Row<T>>, r: Row<T>) {
    && r.stamp != ""
    && (Latest(mine, r) || (Latest(theirs, r) && forall m :: m in mine ==> m.stamp != r.stamp))
  }

  lemma {:induction false} LocalWins<T(!new)>(theirs: seq<Row<T>>, mine: seq<Row<T>>, r: Row<T>)
    ensures Latest(theirs + mine, r)
       <==> Latest(mine, r) || (Latest(theirs, r) && forall m :: m in mine ==> m.stamp != r.stamp)
  {
    hide Latest;
    if mine == [] {
      assert theirs + mine == theirs;
      assert !Latest(mine, r) by { NoneLatest(r); }
    } else {
      var (init, last) := (mine[..|mine| - 1], mine[|mine| - 1]);
      assert mine == init + [last] && theirs + mine == (theirs + init) + [last];
      LocalWins(theirs, init, r);
      LatestGrows(theirs + init, last, r);
      LatestGrows(init, last, r);
      assert forall m :: m in mine <==> m in init || m == last;
    }
  }

  lemma NoneLatest<T(!new)>(r: Row<T>)
    ensures !Latest([], r)
  {
  }

  lemma AllIs<T(!new)>(before: Order, theirs: seq<Row<T>>, mine: seq<Row<T>>)
    requires StrictTotal(before)
    ensures Increasing(before, All(before, theirs, mine))
    ensures forall r :: r in All(before, theirs, mine) <==> OfUnion(theirs, mine, r)
  {
    hide Latest, Sort, Collected, StrictTotal, OnePerStamp, Increasing;
    CollectedIs(theirs + mine);
    SortSorts(before, Collected(theirs + mine));
    forall r ensures r in All(before, theirs, mine) <==> OfUnion(theirs, mine, r) {
      LocalWins(theirs, mine, r);
    }
  }

  // Every row of s is after every row of d that s lacks.
  ghost predicate NewestOf<T(!new)>(before: Order, s: seq<Row<T>>, d: seq<Row<T>>) {
    && (forall x :: x in s ==> x in d)
    && (forall q, x :: q in d && q !in s && x in s ==> before(q.stamp, x.stamp))
  }

  lemma SuffixIsNewest<T(!new)>(before: Order, d: seq<Row<T>>, k: nat)
    requires k <= |d| && StrictTotal(before) && Increasing(before, d)
    ensures Increasing(before, d[k..]) && NewestOf(before, d[k..], d)
  {
    var s := d[k..];
    forall q, x | q in d && q !in s && x in s ensures before(q.stamp, x.stamp) {
      var i :| 0 <= i < |d| && d[i] == q;
      var j :| 0 <= j < |s| && s[j] == x;
      assert forall l :: k <= l < |d| ==> d[l] == s[l - k];
      assert d[k + j] == x;
    }
    assert forall i :: 0 <= i < |s| ==> s[i] == d[k + i];
  }

  // The kept rows are strictly increasing rows of the union, the newest ones, the local row winning
  // on equal stamps; there are at most cap exactly when cap is positive, and then none is dropped needlessly.
  lemma CombinedIs<T(!new)>(before: Order, theirs: seq<Row<T>>, mine: seq<Row<T>>, cap: int)
    requires StrictTotal(before) && theirs != [] && cap != 0
    ensures var (kept, all) := (Combined(before, theirs, mine, cap), All(before, theirs, mine));
      && Increasing(before, kept)
      && (forall x :: x in kept ==> OfUnion(theirs, mine, x))
      && (forall q, x :: OfUnion(theirs, mine, q) && q !in kept && x in kept ==> before(q.stamp, x.stamp))
      && (|kept| <= cap <==> cap > 0)
      && (cap > 0 && (exists q :: OfUnion(theirs, mine, q) && q !in kept) ==> |kept| == cap)
  {
    hide StrictTotal, OfUnion, Increasing;
    var all := All(before, theirs, mine);
    AllIs(before, theirs, mine);
    var k := if cap > 0 then (if |all| <= cap then 0 else |all| - cap) else if |all| <= -cap then |all| else -cap;
    assert all[0..] == all;
    assert Combined(before, theirs, mine, cap) == all[k..];
    SuffixIsNewest(before, all, k);
  }

  // ----- importing the same series again

  // An increasing series whose newest rows are r ends with r.
  lemma {:induction false} EndsWithNewest<T(!new)>(before: Order, u: seq<Row<T>>, r: seq<Row<T>>)
    requires StrictTotal(before) && Increasing(before, u) && Increasing(before, r) && NewestOf(before, r, u)
    ensures |r| <= |u| && u[|u| - |r|..] == r
  {
    hide StrictTotal, Increasing, NewestOf;
    if r != [] {
      LastIs(before, u, r);
      var (u', r') := (u[..|u| - 1], r[..|r| - 1]);
      assert u == u' + [u[|u| - 1]] && r == r' + [r[|r| - 1]];
      WithoutLast(before, u', r', r[|r| - 1]);
      EndsWithNewest(before, u', r');
    }
  }

  lemma WithoutLast<T(!new)>(before: Order, u: seq<Row<T>>, r: seq<Row<T>>, last: Row<T>)
    requires StrictTotal(before) && Increasing(before, u + [last]) && Increasing(before, r + [last])
    requires NewestOf(before, r + [last], u + [last])
    ensures Increasing(before, u) && Increasing(before, r) && NewestOf(before, r, u)
  {
    AllBefore(before, u, last);
    AllBefore(before, r, last);
    assert last !in u && last !in r by { Irreflexive(before, last.stamp); }
    assert forall x :: x in u + [last] <==> x in u || x == last;
    assert forall x :: x in r + [last] <==> x in r || x == last;
  }

  lemma Irreflexive(before: Order, a: string)
    requires StrictTotal(before)
    ensures !before(a, a)
  {
  }

  lemma AllBefore<T(!new)>(before: Order, s: seq<Row<T>>, last: Row<T>)
    requires Increasing(before, s + [last])
    ensures Increasing(before, s) && forall x :: x in s ==> before(x.stamp, last.stamp)
  {
    var t := s + [last];
    assert forall i :: 0 <= i < |s| ==> t[i] == s[i];
    assert t[|s|] == last;
  }

  lemma LastIs<T(!new)>(before: Order, u: seq<Row<T>>, r: seq<Row<T>>)
    requires StrictTotal(before) && Increasing(before, u) && Increasing(before, r) && NewestOf(before, r, u) && r != []
    ensures u != [] && u[|u| - 1] == r[|r| - 1]
  {
    hide StrictTotal, Increasing;
    assert r[|r| - 1] in r && r[|r| - 1] in u;
    assert u[|u| - 1] in u;
    UpToLast(before, u);
    UpToLast(before, r);
    NotBoth(before, r[|r| - 1].stamp, u[|u| - 1].stamp);
  }

  lemma UpToLast<T(!new)>(before: Order, s: seq<Row<T>>)
    requires Increasing(before, s) && s != []
    ensures forall x :: x in s ==> x == s[|s| - 1] || before(x.stamp, s[|s| - 1].stamp)
  {
  }

  lemma NotBoth(before: Order, a: string, b: string)
    requires StrictTotal(before)
    ensures !(before(a, b) && before(b, a))
  {
  }

  lemma OnlyStamp<T(!new)>(before: Order, r: seq<Row<T>>, x: Row<T>)
    requires StrictTotal(before) && Increasing(before, r) && x in r
    ensures Latest(r, x) && forall y :: y in r && y.stamp == x.stamp ==> y == x
  {
    var i :| 0 <= i < |r| && r[i] == x;
    forall y | y in r && y.stamp == x.stamp ensures y == x {
      var j :| 0 <= j < |r| && r[j] == y;
      assert i < j ==> before(x.stamp, y.stamp);
      assert j < i ==> before(y.stamp, x.stamp);
    }
    assert forall j :: i < j < |r| ==> before(r[i].stamp, r[j].stamp);
  }

  lemma {:induction false} LatestExists<T(!new)>(rows: seq<Row<T>>, m: Row<T>) returns (r: Row<T>)
    requires m in rows
    ensures Latest(rows, r) && r.stamp == m.stamp
  {
    hide Latest;
    var (init, last) := (rows[..|rows| - 1], rows[|rows| - 1]);
    assert rows == init + [last];
    if last.stamp == m.stamp {
      r := last;
      LatestGrows(init, last, r);
    } else {
      r := LatestExists(init, m);
      LatestGrows(init, last, r);
    }
  }

  // A row of the second union that was not kept has the stamp of a row the first import dropped.
  lemma Dropped<T(!new)>(theirs: seq<Row<T>>, mine: seq<Row<T>>, kept: seq<Row<T>>, q: Row<T>) returns (d: Row<T>)
    requires OfUnion(theirs, kept, q) && q !in kept
    ensures d.stamp == q.stamp && OfUnion(theirs, mine, d) && d !in kept
  {
    if m :| m in mine && m.stamp == q.stamp {
      d := LatestExists(mine, m);
    } else {
      d := q;
    }
  }

  // With a positive window, importing the same remote series again changes nothing.
  lemma ImportingAgainChangesNothing<T(!new)>(before: Order, theirs: seq<Row<T>>, mine: seq<Row<T>>, cap: int)
    requires StrictTotal(before) && cap > 0
    ensures var kept := Combined(before, theirs, mine, cap); Combined(before, theirs, kept, cap) == kept
  {
    hide StrictTotal, Latest, All;
    if theirs != [] {
      var kept := Combined(before, theirs, mine, cap);
      var again := All(before, theirs, kept);
      CombinedIs(before, theirs, mine, cap);
      AllIs(before, theirs, kept);
      KeptIsNewest(before, theirs, mine, kept, again);
      EndsWithNewest(before, again, kept);
      if |again| > |kept| {
        NotAmongLater(before, again, |again| - |kept|);
        var d := Dropped(theirs, mine, kept, again[0]);
      }
      assert again[0..] == again;
    }
  }

  lemma NotAmongLater<T(!new)>(before: Order, s: seq<Row<T>>, k: nat)
    requires StrictTotal(before) && Increasing(before, s) && 0 < k <= |s|
    ensures s[0] in s && s[0] !in s[k..]
  {
    forall x | x in s[k..] ensures x != s[0] {
      var j :| 0 <= j < |s| - k && s[k..][j] == x;
      assert before(s[0].stamp, s[k + j].stamp);
    }
  }

  lemma KeptIsNewest<T(!new)>(before: Order, theirs: seq<Row<T>>, mine: seq<Row<T>>, kept: seq<Row<T>>,
                              again: seq<Row<T>>)
    requires StrictTotal(before) && Increasing(before, kept)
    requires forall x :: x in kept ==> OfUnion(theirs, mine, x)
    requires forall q, x :: OfUnion(theirs, mine, q) && q !in kept && x in kept ==> before(q.stamp, x.stamp)
    requires forall r :: r in again <==> OfUnion(theirs, kept, r)
    ensures NewestOf(before, kept, again)
  {
    hide StrictTotal, Increasing, Latest;
    forall x | x in kept ensures x in again { OnlyStamp(before, kept, x); }
    forall q, x | q in again && q !in kept && x in kept ensures before(q.stamp, x.stamp) {
      var d := Dropped(theirs, mine, kept, q);
    }
  }

  // ----- a negative window

  ghost function Stamps<T>(s: seq<Row<T>>): set<string> {
    set i | 0 <= i < |s| :: s[i].stamp
  }

  lemma {:induction false} StampCount<T(!new)>(before: Order, s: seq<Row<T>>)
    requires StrictTotal(before) && Increasing(before, s)
    ensures |Stamps(s)| == |s|
  {
    if s == [] {
      assert Stamps(s) == {};
    } else {
      var (init, last) := (s[..|s| - 1], s[|s| - 1]);
      assert s == init + [last];
      AllBefore(before, init, last);
      Irreflexive(before, last.stamp);
      StampCount(before, init);
      assert Stamps(s) == Stamps(init) + {last.stamp};
    }
  }

  // The stamps of the dropped rows that the other side offers again.
  ghost function OfferedAgain<T>(theirs: seq<Row<T>>, dropped: seq<Row<T>>): set<string> {
    Stamps(dropped) * Stamps(theirs)
  }

  // A second import brings back exactly the dropped rows that are offered again.
  lemma BroughtBack<T(!new)>(before: Order, theirs: seq<Row<T>>, mine: seq<Row<T>>, n: nat)
    requires StrictTotal(before) && n <= |All(before, theirs, mine)|
    ensures var (all, kept) := (All(before, theirs, mine), All(before, theirs, mine)[n..]);
      var again := All(before, theirs, kept);
      && |again| == |kept| + |OfferedAgain(theirs, all[..n])| && again[|again| - |kept|..] == kept
  {
    hide StrictTotal, All, Increasing, Latest;
    var all := All(before, theirs, mine);
    var (dropped, kept) := (all[..n], all[n..]);
    var again := All(before, theirs, kept);
    AllIs(before, theirs, mine);
    AllIs(before, theirs, kept);
    SuffixIsNewest(before, all, n);
    KeptIsNewest(before, theirs, mine, kept, again);
    EndsWithNewest(before, again, kept);
    var back := again[..|again| - |kept|];
    assert again == back + kept && all == dropped + kept;
    Halves(before, back, kept);
    Halves(before, dropped, kept);
    OnlyOffered(theirs, mine, dropped, kept, back, again);
    forall x | x in dropped ensures x.stamp != "" { assert x in all; }
    AllOffered(theirs, dropped, kept, back, again);
    assert Stamps(back) == OfferedAgain(theirs, dropped);
    StampCount(before, back);
  }

  lemma Halves<T(!new)>(before: Order, s: seq<Row<T>>, t: seq<Row<T>>)
    requires StrictTotal(before) && Increasing(before, s + t)
    ensures Increasing(before, s)
    ensures forall x, y :: x in s && y in t ==> x.stamp != y.stamp
  {
    var u := s + t;
    assert forall i :: 0 <= i < |s| ==> u[i] == s[i];
    forall x, y | x in s && y in t ensures x.stamp != y.stamp {
      var i :| 0 <= i < |s| && s[i] == x;
      var j :| 0 <= j < |t| && t[j] == y;
      assert before(u[i].stamp, u[|s| + j].stamp);
    }
  }

  lemma OnlyOffered<T(!new)>(theirs: seq<Row<T>>, mine: seq<Row<T>>, dropped: seq<Row<T>>,
                             kept: seq<Row<T>>, back: seq<Row<T>>, again: seq<Row<T>>)
    requires again == back + kept && forall x, y :: x in back && y in kept ==> x.stamp != y.stamp
    requires forall r :: r in dropped + kept <==> OfUnion(theirs, mine, r)
    requires forall r :: r in again <==> OfUnion(theirs, kept, r)
    ensures Stamps(back) <= OfferedAgain(theirs, dropped)
  {
    forall i | 0 <= i < |back| ensures back[i].stamp in OfferedAgain(theirs, dropped) {
      var x := back[i];
      assert x in back && x in again && x !in kept;
      var d := Dropped(theirs, mine, kept, x);
      assert d in dropped + kept;
      InStamps(dropped, d);
      InStamps(theirs, x);
    }
  }

  lemma InStamps<T(!new)>(s: seq<Row<T>>, r: Row<T>)
    requires r in s
    ensures r.stamp in Stamps(s)
  {
  }

  lemma AllOffered<T(!new)>(theirs: seq<Row<T>>, dropped: seq<Row<T>>,
                            kept: seq<Row<T>>, back: seq<Row<T>>, again: seq<Row<T>>)
    requires again == back + kept && forall x, y :: x in dropped && y in kept ==> x.stamp != y.stamp
    requires forall x :: x in dropped ==> x.stamp != ""
    requires forall r :: r in again <==> OfUnion(theirs, kept, r)
    ensures OfferedAgain(theirs, dropped) <= Stamps(back)
  {
    forall stamp | stamp in OfferedAgain(theirs, dropped) ensures stamp in Stamps(back) {
      var i :| 0 <= i < |dropped| && dropped[i].stamp == stamp;
      var j :| 0 <= j < |theirs| && theirs[j].stamp == stamp;
      var r := LatestExists(theirs, theirs[j]);
      assert dropped[i] in dropped;
      assert r in again && r !in kept;
      InStamps(back, r);
    }
  }

  // A negative window, which the remote instance may name, drops the oldest rows. Importing the
  // same series again then changes nothing exactly when the series is empty, everything was
  // dropped, or the series offers a row for every stamp that was.
  lemma ImportingAgainIff<T(!new)>(before: Order, theirs: seq<Row<T>>, mine: seq<Row<T>>, cap: int)
    requires StrictTotal(before) && cap < 0
    ensures var (kept, all) := (Combined(before, theirs, mine, cap), All(before, theirs, mine));
      Combined(before, theirs, kept, cap) == kept <==>
        theirs == [] || |all| <= -cap
        || forall k :: 0 <= k < -cap ==> exists t :: t in theirs && t.stamp == all[k].stamp
  {
    hide StrictTotal, All;
    if theirs == [] { return; }
    var all := All(before, theirs, mine);
    var n := if |all| <= -cap then |all| else -cap;
    var (kept, again) := (all[n..], All(before, theirs, all[n..]));
    assert Combined(before, theirs, mine, cap) == kept;
    BroughtBack(before, theirs, mine, n);
    OfferedCount(before, theirs, mine, n);
    if |all| > -cap {
      assert |kept| > 0;
      SliceIs(again, cap, kept);
    } else {
      assert kept == [];
    }
  }

  // How many come back: at most as many as were dropped, and that many when each is offered.
  lemma OfferedCount<T(!new)>(before: Order, theirs: seq<Row<T>>, mine: seq<Row<T>>, n: nat)
    requires StrictTotal(before) && n <= |All(before, theirs, mine)|
    ensures var all := All(before, theirs, mine);
      var offered := |OfferedAgain(theirs, all[..n])|;
      offered <= n
      && (offered == n <==> forall k :: 0 <= k < n ==> exists t :: t in theirs && t.stamp == all[k].stamp)
  {
    hide StrictTotal, All, Increasing;
    var all := All(before, theirs, mine);
    var dropped := all[..n];
    AllIs(before, theirs, mine);
    assert all == dropped + all[n..];
    Halves(before, dropped, all[n..]);
    StampCount(before, dropped);
    SubsetCount(OfferedAgain(theirs, dropped), Stamps(dropped));
    if OfferedAgain(theirs, dropped) == Stamps(dropped) {
      forall k | 0 <= k < n ensures exists t :: t in theirs && t.stamp == all[k].stamp {
        InStamps(dropped, dropped[k]);
        assert dropped[k].stamp in OfferedAgain(theirs, dropped);
        var j :| 0 <= j < |theirs| && theirs[j].stamp == dropped[k].stamp;
        assert theirs[j] in theirs;
      }
    }
    if forall k :: 0 <= k < n ==> exists t :: t in theirs && t.stamp == all[k].stamp {
      forall k | 0 <= k < n ensures dropped[k].stamp in Stamps(theirs) {
        var t :| t in theirs && t.stamp == all[k].stamp;
        InStamps(theirs, t);
      }
      assert OfferedAgain(theirs, dropped) == Stamps(dropped);
    }
  }

  lemma {:induction false} SubsetCount(a: set<string>, b: set<string>)
    requires a <= b
    ensures |a| <= |b| && (|a| == |b| <==> a == b)
  {
    assert b == a + (b - a);
    if b - a != {} { var x :| x in b - a; }
  }

  lemma SliceIs<T(!new)>(again: seq<Row<T>>, cap: int, kept: seq<Row<T>>)
    requires cap < 0 && 0 < |kept| <= |again| <= |kept| - cap && again[|again| - |kept|..] == kept
    ensures SliceFromEnd(again, cap) == kept <==> |again| == |kept| - cap
  {
  }

  // One row on each side and a window of -1, the older one not offered: the second import leaves
  // nothing.
  lemma SecondImportLosesAll(before: Order, a: Row<int>, b: Row<int>)
    requires StrictTotal(before) && before(a.stamp, b.stamp) && a.stamp != "" && b.stamp != ""
    ensures Combined(before, [b], [a], -1) == [b] && Combined(before, [b], [b], -1) == []
  {
    assert [b] + [a] == [b, a] && [b, a][..1] == [b] && [b] + [b] == [b, b] && [b, b][..1] == [b] && [b][..0] == [];
    assert Collected([b]) == [b];
    assert Collected([b, a]) == [b, a] by { assert Put([b], a) == [b] + Put([], a); }
    assert Collected([b, b]) == [b] by { assert Put([b], b) == [b]; }
    assert [b, a][1..] == [a] && [a][1..] == [] && [b][1..] == [];
    assert Sort(before, [a]) == [a] && Sort(before, [b]) == [b];
    assert Sort(before, [b, a]) == Insert(before, b, [a]);
    assert !before(b.stamp, a.stamp);
  }
}
