/** gateway/index-state.ts: which invoice index the next customer gets.

    The store is a class whose methods update its lists in place; each method is tied to a
    function on the abstract state, and what the file's header promises is proved about
    whole runs of those functions. Times are integer milliseconds. */
module IndexState {
  import opened Prelude

  datatype Reclaimed = Reclaimed(index: int, at: int)

  // `settled` indices are exactly those below `next` that are in neither list.
  datatype IndexState = IndexState(next: nat, reclaimed: seq<Reclaimed>, issued: seq<int>)

  const EMPTY := IndexState(0, [], [])

  datatype Request = Allocate(now: int) | Release(index: int, now: int) | Settle(index: int)

  datatype Event =
    | Issued(index: int, now: int)
    | Returned(index: int, at: int)
    | Retired(index: int)
    | Ignored(index: int)

  predicate Rested(r: Reclaimed, now: int, quarantine: int) {
    now - r.at >= quarantine
  }

  // findIndex over the reclaimed list: the first entry out of quarantine, or the length.
  function FirstReady(rs: seq<Reclaimed>, now: int, quarantine: int): (k: nat)
    ensures k <= |rs|
    ensures k < |rs| ==> Rested(rs[k], now, quarantine)
    ensures forall j :: 0 <= j < k ==> !Rested(rs[j], now, quarantine)
  {
    if rs == [] || Rested(rs[0], now, quarantine) then 0
    else 1 + FirstReady(rs[1..], now, quarantine)
  }

  predicate HasReclaimed(rs: seq<Reclaimed>, index: int) {
    exists k :: 0 <= k < |rs| && rs[k].index == index
  }

  function AddIssued(issued: seq<int>, index: int): seq<int> {
    if index in issued then issued else issued + [index]
  }

  function Step(s: IndexState, quarantine: int, r: Request): (IndexState, Event) {
    match r
    case Allocate(now) =>
      var k := FirstReady(s.reclaimed, now, quarantine);
      if k < |s.reclaimed| then
        var index := s.reclaimed[k].index;
        (IndexState(s.next, Splice(s.reclaimed, k), AddIssued(s.issued, index)), Issued(index, now))
      else
        (IndexState(s.next + 1, s.reclaimed, AddIssued(s.issued, s.next)), Issued(s.next, now))
    case Release(index, now) =>
      var k := IndexOf(s.issued, index);
      if k == |s.issued| then (s, Ignored(index))
      else
        var rest := if HasReclaimed(s.reclaimed, index) then s.reclaimed
                    else s.reclaimed + [Reclaimed(index, now)];
        (IndexState(s.next, rest, Splice(s.issued, k)), Returned(index, now))
    case Settle(index) =>
      var k := IndexOf(s.issued, index);
      if k == |s.issued| then (s, Ignored(index))
      else (IndexState(s.next, s.reclaimed, Splice(s.issued, k)), Retired(index))
  }

  function Final(quarantine: int, rs: seq<Request>): IndexState {
    if rs == [] then EMPTY else Step(Final(quarantine, rs[..|rs| - 1]), quarantine, rs[|rs| - 1]).0
  }

  function Events(quarantine: int, rs: seq<Request>): (es: seq<Event>)
    ensures |es| == |rs|
  {
    if rs == [] then []
    else
      var before := rs[..|rs| - 1];
      Events(quarantine, before) + [Step(Final(quarantine, before), quarantine, rs[|rs| - 1]).1]
  }

  // ----- the store itself

  class IndexStore {
    const quarantine: int
    var loaded: bool
    var next: nat
    var reclaimed: seq<Reclaimed>
    var issued: seq<int>
    var file: Option<IndexState>   // what a restart would read back

    constructor (quarantine: int, file: Option<IndexState>)
      ensures this.quarantine == quarantine && this.file == file && !loaded
    {
      this.quarantine := quarantine;
      this.file := file;
      loaded, next, reclaimed, issued := false, 0, [], [];
    }

    // The state a call works on: the one in memory, or the one the first call will load.
    function State(): IndexState
      reads this
    {
      if loaded then IndexState(next, reclaimed, issued)
      else match file
        case Some(s) => s
        case None => EMPTY
    }

    method Load()
      modifies this
      ensures loaded && State() == old(State()) && file == old(file)
    {
      if loaded { return; }
      var s := if file.Some? then file.value else EMPTY;
      loaded, next, reclaimed, issued := true, s.next, s.reclaimed, s.issued;
    }

    method Persist()
      requires loaded
      modifies this
      ensures loaded && State() == old(State()) && file == Some(State())
    {
      file := Some(IndexState(next, reclaimed, issued));
    }

    method AllocateIndex(now: int) returns (index: int)
      modifies this
      ensures (State(), Issued(index, now)) == Step(old(State()), quarantine, Allocate(now))
      ensures loaded && file == Some(State())
    {
      Load();
      var ready := FirstReady(reclaimed, now, quarantine);
      if ready < |reclaimed| {
        index := reclaimed[ready].index;
        reclaimed := Splice(reclaimed, ready);
      } else {
        index := next;
        next := next + 1;
      }
      if index !in issued {
        issued := issued + [index];
      }
      Persist();
    }

    method ReleaseIndex(index: int, now: int) returns (ok: bool)
      modifies this
      ensures (State(), if ok then Returned(index, now) else Ignored(index))
           == Step(old(State()), quarantine, Release(index, now))
      ensures loaded && file == if ok then Some(State()) else old(file)
    {
      Load();
      var at := IndexOf(issued, index);
      if at == |issued| { return false; }
      issued := Splice(issued, at);
      if !HasReclaimed(reclaimed, index) {
        reclaimed := reclaimed + [Reclaimed(index, now)];
      }
      Persist();
      return true;
    }

    method SettleIndex(index: int) returns (ok: bool)
      modifies this
      ensures (State(), if ok then Retired(index) else Ignored(index))
           == Step(old(State()), quarantine, Settle(index))
      ensures loaded && file == if ok then Some(State()) else old(file)
    {
      Load();
      var at := IndexOf(issued, index);
      if at == |issued| { return false; }
      issued := Splice(issued, at);
      Persist();
      return true;
    }
  }

  // ----- what the history of a run says about one index

  datatype Status = Untouched | Live | Resting(at: int) | Spent

  predicate Concerns(e: Event, x: int) {
    match e
    case Issued(i, _) => i == x
    case Returned(i, _) => i == x
    case Retired(i) => i == x
    case Ignored(_) => false
  }

  // Decided by the last event that concerns x; independent of the store's own lists.
  function StatusOf(es: seq<Event>, x: int): Status {
    if es == [] then Untouched
    else
      var e := es[|es| - 1];
      if !Concerns(e, x) then StatusOf(es[..|es| - 1], x)
      else match e
        case Issued(_, _) => Live
        case Returned(_, at) => Resting(at)
        case Retired(_) => Spent
        case Ignored(_) => Untouched
  }

  // The two lists and the counter partition the indices ever handed out.
  ghost predicate Partition(s: IndexState) {
    && Distinct(s.issued)
    && (forall i, j :: 0 <= i < j < |s.reclaimed| ==> s.reclaimed[i].index != s.reclaimed[j].index)
    && (forall x :: x in s.issued ==> 0 <= x < s.next)
    && (forall r :: r in s.reclaimed ==> 0 <= r.index < s.next && r.index !in s.issued)
  }

  // The store's lists say about every index what the history says.
  ghost predicate Agrees(s: IndexState, es: seq<Event>) {
    && (forall x :: x in s.issued <==> StatusOf(es, x) == Live)
    && (forall r :: r in s.reclaimed <==> StatusOf(es, r.index) == Resting(r.at))
    && (forall x :: 0 <= x < s.next <==> StatusOf(es, x) != Untouched)
  }

  lemma HasReclaimedIff(rs: seq<Reclaimed>, x: int)
    ensures HasReclaimed(rs, x) <==> exists r :: r in rs && r.index == x
  {
    if r :| r in rs && r.index == x {
      var k :| 0 <= k < |rs| && rs[k] == r;
      assert rs[k].index == x;
    }
  }

  lemma StatusSnoc(es: seq<Event>, e: Event, x: int)
    ensures StatusOf(es + [e], x) ==
            if !Concerns(e, x) then StatusOf(es, x)
            else match e
              case Issued(_, _) => Live
              case Returned(_, at) => Resting(at)
              case Retired(_) => Spent
              case Ignored(_) => Untouched
  {
    assert (es + [e])[..|es + [e]| - 1] == es;
  }

  lemma DistinctIndices(rs: seq<Reclaimed>, k: nat)
    requires forall i, j :: 0 <= i < j < |rs| ==> rs[i].index != rs[j].index
    requires k < |rs|
    ensures var t := Splice(rs, k);
            && (forall i, j :: 0 <= i < j < |t| ==> t[i].index != t[j].index)
            && (forall r :: r in t <==> r in rs && r.index != rs[k].index)
  {
    var t := Splice(rs, k);
    forall r ensures r in t <==> r in rs && r.index != rs[k].index {
      if r in rs && r.index != rs[k].index {
        var i :| 0 <= i < |rs| && rs[i] == r;
        assert t[if i < k then i else i - 1] == r;
      }
      if r in t {
        var i :| 0 <= i < |t| && t[i] == r;
        assert r == rs[if i < k then i else i + 1];
      }
    }
  }

  lemma AllocateKeepsPartition(s: IndexState, q: int, now: int)
    requires Partition(s)
    ensures Partition(Step(s, q, Allocate(now)).0)
  {
    var k := FirstReady(s.reclaimed, now, q);
    if k < |s.reclaimed| {
      DistinctIndices(s.reclaimed, k);
      assert s.reclaimed[k] in s.reclaimed;
    }
  }

  lemma ReleaseKeepsPartition(s: IndexState, q: int, index: int, now: int)
    requires Partition(s)
    ensures Partition(Step(s, q, Release(index, now)).0)
  {
    hide IndexOf;
    var k := IndexOf(s.issued, index);
    if k < |s.issued| {
      SpliceDistinct(s.issued, k);
      HasReclaimedIff(s.reclaimed, index);
      assert forall j :: 0 <= j < |s.reclaimed| ==> s.reclaimed[j] in s.reclaimed;
    }
  }

  lemma StepKeepsPartition(s: IndexState, q: int, r: Request)
    requires Partition(s)
    ensures Partition(Step(s, q, r).0)
  {
    match r
    case Allocate(now) => AllocateKeepsPartition(s, q, now);
    case Release(index, now) => ReleaseKeepsPartition(s, q, index, now);
    case Settle(index) =>
      var k := IndexOf(s.issued, index);
      if k < |s.issued| { SpliceDistinct(s.issued, k); }
  }

  lemma StepAgrees(s: IndexState, q: int, r: Request, es: seq<Event>)
    requires Partition(s) && Agrees(s, es)
    ensures Agrees(Step(s, q, r).0, es + [Step(s, q, r).1])
  {
    var (t, e) := Step(s, q, r);
    forall x { StatusSnoc(es, e, x); }
    match r
    case Allocate(now) =>
      var k := FirstReady(s.reclaimed, now, q);
      if k < |s.reclaimed| {
        DistinctIndices(s.reclaimed, k);
        assert s.reclaimed[k] in s.reclaimed;
      }
    case Release(index, now) =>
      var k := IndexOf(s.issued, index);
      if k < |s.issued| {
        SpliceDistinct(s.issued, k);
        HasReclaimedIff(s.reclaimed, index);
      }
    case Settle(index) =>
      var k := IndexOf(s.issued, index);
      if k < |s.issued| { SpliceDistinct(s.issued, k); }
  }

  lemma {:induction false} RunAgrees(q: int, rs: seq<Request>)
    ensures Partition(Final(q, rs)) && Agrees(Final(q, rs), Events(q, rs))
  {
    if rs != [] {
      var before := rs[..|rs| - 1];
      RunAgrees(q, before);
      StepKeepsPartition(Final(q, before), q, rs[|rs| - 1]);
      StepAgrees(Final(q, before), q, rs[|rs| - 1], Events(q, before));
    }
  }
}
