/** What the header of gateway/index-state.ts promises, over every run of the store. */
module IndexRuns {
  import opened Prelude
  import opened IndexState

  // ----- reading a status back out of the history

  lemma {:induction false} RestingFrom(es: seq<Event>, x: int, at: int) returns (k: nat)
    requires StatusOf(es, x) == Resting(at)
    ensures k < |es| && es[k] == Returned(x, at)
    ensures forall m :: k < m < |es| ==> !Concerns(es[m], x)
  {
    var n := |es| - 1;
    if Concerns(es[n], x) { k := n; } else { k := RestingFrom(es[..n], x, at); }
  }

  lemma {:induction false} UntouchedMeans(es: seq<Event>, x: int)
    ensures StatusOf(es, x) == Untouched <==> forall m :: 0 <= m < |es| ==> !Concerns(es[m], x)
  {
    if es != [] {
      var n := |es| - 1;
      UntouchedMeans(es[..n], x);
      assert forall m :: 0 <= m < n ==> es[m] == es[..n][m];
      assert !Concerns(es[n], x) || StatusOf(es, x) != Untouched;
    }
  }

  lemma {:induction false} EventsPrefix(q: int, rs: seq<Request>, n: nat)
    requires n <= |rs|
    ensures Events(q, rs)[..n] == Events(q, rs[..n])
  {
    if n < |rs| {
      EventsPrefix(q, rs[..|rs| - 1], n);
      assert rs[..|rs| - 1][..n] == rs[..n];
    } else {
      assert rs[..n] == rs;
    }
  }

  // The j-th event is the step the store takes from the state the first j requests left.
  lemma EventAt(q: int, rs: seq<Request>, j: nat)
    requires j < |rs|
    ensures Events(q, rs)[j] == Step(Final(q, rs[..j]), q, rs[j]).1
  {
    EventsPrefix(q, rs, j + 1);
    var upto := rs[..j + 1];
    assert upto[..j] == rs[..j];
    assert Events(q, rs)[j] == Events(q, rs)[..j + 1][j] == Events(q, upto)[j];
  }

  // Every index handed out had either never been used, or had rested the whole quarantine.
  lemma IssuedWas(q: int, rs: seq<Request>, j: nat, x: int)
    requires j < |rs|
    requires Events(q, rs)[j].Issued? && Events(q, rs)[j].index == x
    ensures var was := StatusOf(Events(q, rs)[..j], x);
            was == Untouched || (was.Resting? && Events(q, rs)[j].now - was.at >= q)
  {
    EventAt(q, rs, j);
    EventsPrefix(q, rs, j);
    RunAgrees(q, rs[..j]);
    var s := Final(q, rs[..j]);
    var k := FirstReady(s.reclaimed, rs[j].now, q);
    if k < |s.reclaimed| { assert s.reclaimed[k] in s.reclaimed; }
  }

  lemma {:induction false} SpentForever(q: int, rs: seq<Request>, i: nat, x: int)
    requires i < |rs| && Events(q, rs)[i] == Retired(x)
    ensures StatusOf(Events(q, rs), x) == Spent
  {
    var n := |rs| - 1;
    var es := Events(q, rs);
    EventsPrefix(q, rs, n);
    if i < n {
      SpentForever(q, rs[..n], i, x);
      RunAgrees(q, rs[..n]);
      EventAt(q, rs, n);
      var s := Final(q, rs[..n]);
      assert x !in s.issued && x < s.next;
      if Concerns(es[n], x) && rs[n].Allocate? {
        IssuedWas(q, rs, n, x);
        assert false;
      }
    }
  }

  /** The safety theorem. An index handed out a second time was released in between, nothing
      touched it between that release and its reissue, it rested the whole quarantine, and it
      had not been settled. */
  lemma ReissueIsSafe(q: int, rs: seq<Request>, i: nat, j: nat, x: int)
    requires i < j < |rs|
    requires Events(q, rs)[i].Issued? && Events(q, rs)[i].index == x
    requires Events(q, rs)[j].Issued? && Events(q, rs)[j].index == x
    ensures exists k :: i < k < j && Events(q, rs)[k].Returned? && Events(q, rs)[k].index == x
                        && Events(q, rs)[j].now - Events(q, rs)[k].at >= q
                        && forall m :: k < m < j ==> !Concerns(Events(q, rs)[m], x)
    ensures forall k :: 0 <= k < j ==> Events(q, rs)[k] != Retired(x)
  {
    hide Events, StatusOf, Final, Step;
    var es := Events(q, rs);
    IssuedWas(q, rs, j, x);
    UntouchedMeans(es[..j], x);
    assert es[..j][i] == es[i] && Concerns(es[i], x);
    var at := StatusOf(es[..j], x).at;
    var k := RestingFrom(es[..j], x, at);
    assert forall m :: k < m < j ==> es[m] == es[..j][m];
    assert es[k] == Returned(x, at);
    forall k | 0 <= k < j ensures es[k] != Retired(x) {
      if es[k] == Retired(x) {
        EventsPrefix(q, rs, j);
        assert es[..j][k] == es[k];
        SpentForever(q, rs[..j], k, x);
      }
    }
  }

  /** No two live invoices share an index, and a retired index is never live or offered again. */
  lemma RetiredNeverReturns(q: int, rs: seq<Request>, i: nat, j: nat, x: int)
    requires i < j < |rs| && Events(q, rs)[i] == Retired(x)
    ensures !Concerns(Events(q, rs)[j], x)
  {
    hide Events, StatusOf, Final;
    EventsPrefix(q, rs, j);
    assert Events(q, rs)[..j][i] == Retired(x);
    SpentForever(q, rs[..j], i, x);
    EventAt(q, rs, j);
    RunAgrees(q, rs[..j]);
    var s := Final(q, rs[..j]);
    assert x !in s.issued;
    if Events(q, rs)[j].Issued? && Events(q, rs)[j].index == x { IssuedWas(q, rs, j, x); }
  }

  // ----- oldest first

  predicate Longest(rs: seq<Reclaimed>, k: nat)
    requires k < |rs|
  {
    forall j :: 0 <= j < |rs| ==> rs[k].at <= rs[j].at
  }

  /** The entry reissued is always the longest rested, whatever the clock then reads, exactly
      when the list's head is its oldest entry. */
  lemma OldestFirstIff(rs: seq<Reclaimed>, q: int)
    requires rs != []
    ensures (forall now :: FirstReady(rs, now, q) < |rs| ==> Longest(rs, FirstReady(rs, now, q)))
            <==> Longest(rs, 0)
  {
    if Longest(rs, 0) {
      forall now ensures FirstReady(rs, now, q) < |rs| ==> FirstReady(rs, now, q) == 0 {
        var k := FirstReady(rs, now, q);
        if k < |rs| { assert rs[0].at <= rs[k].at; assert Rested(rs[0], now, q); }
      }
    } else {
      var j :| 0 <= j < |rs| && rs[j].at < rs[0].at;
      assert FirstReady(rs, rs[0].at + q, q) == 0;
    }
  }

  ghost predicate NonDecreasingClock(rs: seq<Request>) {
    forall i, j :: 0 <= i < j < |rs| && !rs[i].Settle? && !rs[j].Settle? ==> rs[i].now <= rs[j].now
  }

  ghost predicate OldestFirst(rs: seq<Reclaimed>) {
    forall i, j :: 0 <= i < j < |rs| ==> rs[i].at <= rs[j].at
  }

  // Some release of the run carries this stamp.
  ghost predicate StampedBy(rs: seq<Request>, at: int) {
    exists i :: 0 <= i < |rs| && rs[i].Release? && rs[i].now == at
  }

  lemma StampGrows(rs: seq<Request>, r: Request, at: int)
    requires StampedBy(rs, at)
    ensures StampedBy(rs + [r], at)
  {
    var i :| 0 <= i < |rs| && rs[i].Release? && rs[i].now == at;
    assert (rs + [r])[i] == rs[i];
  }

  // One request appends at most one entry, and removes at most one.
  lemma StepKeepsOrder(s: IndexState, q: int, r: Request)
    requires OldestFirst(s.reclaimed)
    requires r.Release? ==> forall e :: e in s.reclaimed ==> e.at <= r.now
    ensures OldestFirst(Step(s, q, r).0.reclaimed)
    ensures forall e :: e in Step(s, q, r).0.reclaimed ==> e in s.reclaimed || (r.Release? && e.at == r.now)
  {
    hide IndexOf, FirstReady;
  }

  // Entries are stamped in order, and each stamp is the time of some release.
  lemma {:induction false} ClockKeepsOrder(q: int, rs: seq<Request>)
    requires NonDecreasingClock(rs)
    ensures OldestFirst(Final(q, rs).reclaimed)
    ensures forall r :: r in Final(q, rs).reclaimed ==> StampedBy(rs, r.at)
  {
    hide Step, OldestFirst, StampedBy;
    if rs == [] {
      NothingStamped();
    } else {
      var n := |rs| - 1;
      var (before, r) := (rs[..n], rs[n]);
      var s := Final(q, before);
      ClockKeepsOrder(q, before);
      if r.Release? {
        forall e | e in s.reclaimed ensures e.at <= r.now { StampBefore(rs, e.at); }
      }
      StepKeepsOrder(s, q, r);
      forall e | e in Final(q, rs).reclaimed ensures StampedBy(rs, e.at) {
        assert before + [r] == rs;
        if e in s.reclaimed { StampGrows(before, r, e.at); } else { LastStamp(rs); }
      }
    }
  }

  lemma NothingStamped()
    ensures OldestFirst(EMPTY.reclaimed)
  {
  }

  lemma LastStamp(rs: seq<Request>)
    requires rs != [] && rs[|rs| - 1].Release?
    ensures StampedBy(rs, rs[|rs| - 1].now)
  {
  }

  lemma StampBefore(rs: seq<Request>, at: int)
    requires rs != [] && NonDecreasingClock(rs) && rs[|rs| - 1].Release? && StampedBy(rs[..|rs| - 1], at)
    ensures at <= rs[|rs| - 1].now
  {
    var n := |rs| - 1;
    var i :| 0 <= i < n && rs[..n][i].Release? && rs[..n][i].now == at;
    assert rs[i] == rs[..n][i];
  }

  /** With a clock that never runs backwards the index reissued has rested longest. */
  lemma ReissuesTheLongestRested(q: int, rs: seq<Request>, now: int)
    requires NonDecreasingClock(rs)
    ensures var waiting := Final(q, rs).reclaimed;
            FirstReady(waiting, now, q) < |waiting| ==> Longest(waiting, FirstReady(waiting, now, q))
  {
    ClockKeepsOrder(q, rs);
    var waiting := Final(q, rs).reclaimed;
    if waiting != [] { OldestFirstIff(waiting, q); }
  }

  /** A clock set back by one second between two releases breaks it: the younger rest wins. */
  lemma ClockSetBack()
    ensures var waiting := Final(10, [Allocate(0), Allocate(0), Release(0, 2000), Release(1, 1000)]).reclaimed;
            |waiting| == 2 && FirstReady(waiting, 9000, 10) == 0 && !Longest(waiting, 0)
  {
    hide Final, FirstReady;
    SetBackRun();
    var waiting := [Reclaimed(0, 2000), Reclaimed(1, 1000)];
    HeadReady(waiting, 9000, 10);
    assert waiting[1].at < waiting[0].at;
  }

  lemma SetBackRun()
    ensures Final(10, [Allocate(0), Allocate(0), Release(0, 2000), Release(1, 1000)])
         == IndexState(2, [Reclaimed(0, 2000), Reclaimed(1, 1000)], [])
  {
    hide Final, Step;
    var two := [Allocate(0), Allocate(0)];
    TwoIssued();
    var three := two + [Release(0, 2000)];
    FinalSnoc(10, two, Release(0, 2000));
    ReleaseOldest(IndexState(2, [], [0, 1]), 10, 2000);
    assert [0, 1][1..] == [1] && [] + [Reclaimed(0, 2000)] == [Reclaimed(0, 2000)];
    FinalSnoc(10, three, Release(1, 1000));
    ReleaseOldest(IndexState(2, [Reclaimed(0, 2000)], [1]), 10, 1000);
    assert [1 as int][1..] == [];
    assert [Reclaimed(0, 2000)] + [Reclaimed(1, 1000)] == [Reclaimed(0, 2000), Reclaimed(1, 1000)];
    assert three + [Release(1, 1000)] == [Allocate(0), Allocate(0), Release(0, 2000), Release(1, 1000)];
  }

  lemma TwoIssued()
    ensures Final(10, [Allocate(0), Allocate(0)]) == IndexState(2, [], [0, 1])
  {
    hide Final, Step;
    FinalOfNone(10);
    FinalSnoc(10, [], Allocate(0));
    AllocateFresh(EMPTY, 10, 0);
    assert [] + [Allocate(0)] == [Allocate(0)] && [] + [0] == [0];
    FinalSnoc(10, [Allocate(0)], Allocate(0));
    AllocateFresh(IndexState(1, [], [0]), 10, 0);
    assert [Allocate(0)] + [Allocate(0)] == [Allocate(0), Allocate(0)] && [0] + [1] == [0, 1];
  }

  lemma FinalOfNone(q: int)
    ensures Final(q, []) == EMPTY
  {
  }

  lemma HeadReady(rs: seq<Reclaimed>, now: int, q: int)
    requires rs != [] && Rested(rs[0], now, q)
    ensures FirstReady(rs, now, q) == 0
  {
  }

  lemma AllocateFresh(s: IndexState, q: int, now: int)
    requires s.reclaimed == [] && s.next !in s.issued
    ensures Step(s, q, Allocate(now)) == (IndexState(s.next + 1, [], s.issued + [s.next]), Issued(s.next, now))
  {
  }

  lemma ReleaseOldest(s: IndexState, q: int, now: int)
    requires s.issued != [] && !HasReclaimed(s.reclaimed, s.issued[0])
    ensures Step(s, q, Release(s.issued[0], now))
         == (IndexState(s.next, s.reclaimed + [Reclaimed(s.issued[0], now)], s.issued[1..]), Returned(s.issued[0], now))
  {
    assert IndexOf(s.issued, s.issued[0]) == 0;
    assert Splice(s.issued, 0) == s.issued[1..];
  }

  lemma FinalSnoc(q: int, rs: seq<Request>, r: Request)
    ensures Final(q, rs + [r]) == Step(Final(q, rs), q, r).0
  {
    assert (rs + [r])[..|rs|] == rs;
  }

  // ----- conservation and density

  function RetiredCount(es: seq<Event>): nat {
    if es == [] then 0
    else RetiredCount(es[..|es| - 1]) + if es[|es| - 1].Retired? then 1 else 0
  }

  /** Every index ever drawn is live, released or settled, and counted once. */
  lemma {:induction false} Conservation(q: int, rs: seq<Request>)
    ensures var s := Final(q, rs);
            s.next == |s.issued| + |s.reclaimed| + RetiredCount(Events(q, rs))
  {
    if rs != [] {
      var n := |rs| - 1;
      var s := Final(q, rs[..n]);
      Conservation(q, rs[..n]);
      RunAgrees(q, rs[..n]);
      EventsPrefix(q, rs, n);
      match rs[n]
      case Allocate(now) =>
        var k := FirstReady(s.reclaimed, now, q);
        if k < |s.reclaimed| { assert s.reclaimed[k] in s.reclaimed; }
      case Release(index, now) =>
        HasReclaimedIff(s.reclaimed, index);
      case Settle(index) =>
    }
  }

  // Releases the history records that are still inside the quarantine at `now`.
  function RecentReturns(es: seq<Event>, now: int, q: int): nat {
    if es == [] then 0
    else RecentReturns(es[..|es| - 1], now, q)
         + if es[|es| - 1].Returned? && now - es[|es| - 1].at < q then 1 else 0
  }

  function Quarantined(rs: seq<Reclaimed>, now: int, q: int): nat {
    if rs == [] then 0
    else Quarantined(rs[..|rs| - 1], now, q) + if Rested(rs[|rs| - 1], now, q) then 0 else 1
  }

  lemma QuarantinedSnoc(rs: seq<Reclaimed>, r: Reclaimed, now: int, q: int)
    ensures Quarantined(rs + [r], now, q) == Quarantined(rs, now, q) + if Rested(r, now, q) then 0 else 1
  {
    assert (rs + [r])[..|rs|] == rs;
  }

  lemma {:induction false} QuarantinedSplice(rs: seq<Reclaimed>, k: nat, now: int, q: int)
    requires k < |rs|
    ensures Quarantined(Splice(rs, k), now, q) <= Quarantined(rs, now, q)
  {
    hide Quarantined, Rested;
    var n := |rs| - 1;
    assert rs == rs[..n] + [rs[n]];
    QuarantinedSnoc(rs[..n], rs[n], now, q);
    if k < n {
      QuarantinedSplice(rs[..n], k, now, q);
      QuarantinedSnoc(Splice(rs[..n], k), rs[n], now, q);
      assert Splice(rs, k) == Splice(rs[..n], k) + [rs[n]];
    } else {
      assert Splice(rs, k) == rs[..n];
    }
  }

  lemma {:induction false} AllQuarantined(rs: seq<Reclaimed>, now: int, q: int)
    requires forall k :: 0 <= k < |rs| ==> !Rested(rs[k], now, q)
    ensures Quarantined(rs, now, q) == |rs|
  {
    if rs != [] { AllQuarantined(rs[..|rs| - 1], now, q); }
  }

  lemma {:induction false} QuarantinedWereReturned(q: int, rs: seq<Request>, now: int)
    ensures Quarantined(Final(q, rs).reclaimed, now, q) <= RecentReturns(Events(q, rs), now, q)
  {
    if rs != [] {
      var n := |rs| - 1;
      var s := Final(q, rs[..n]);
      QuarantinedWereReturned(q, rs[..n], now);
      EventsPrefix(q, rs, n);
      match rs[n]
      case Allocate(t) =>
        var k := FirstReady(s.reclaimed, t, q);
        if k < |s.reclaimed| { QuarantinedSplice(s.reclaimed, k, now, q); }
      case Release(index, t) =>
        QuarantinedSnoc(s.reclaimed, Reclaimed(index, t), now, q);
      case Settle(index) =>
    }
  }

  /** The chain grows only when every released index is still in quarantine, so its length at
      that moment is at most what is settled, live, or was released within one quarantine. */
  lemma ChainStaysDense(q: int, rs: seq<Request>, now: int)
    requires Step(Final(q, rs), q, Allocate(now)).0.next > Final(q, rs).next
    ensures var t := Step(Final(q, rs), q, Allocate(now)).0;
            && (forall r :: r in t.reclaimed ==> now - r.at < q)
            && t.next <= RetiredCount(Events(q, rs)) + |t.issued| + RecentReturns(Events(q, rs), now, q)
  {
    var s := Final(q, rs);
    Conservation(q, rs);
    RunAgrees(q, rs);
    AllQuarantined(s.reclaimed, now, q);
    QuarantinedWereReturned(q, rs, now);
  }
}
