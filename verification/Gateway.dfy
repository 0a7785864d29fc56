/** gateway/gateway.mjs: one allocator per network behind one socket.

    A step is the code between two awaits. A chain request resolves the active network when it
    is dispatched, mutates that network's store after the load await, and answers after the
    persist await; other requests and the operator's actions run in between. The stores are
    loaded, and addresses are an uninterpreted function of what they are derived from. */
module Gateway {
  import opened Prelude
  import IS = IndexState
  import IR = IndexRuns
  import B = Bootstrap

  type Network = string

  // Own code, receiver's code, index, network.
  type AddressFor = (string, string, int, Network) -> string

  // `codes` are the shop's payment codes; a chain exists for exactly those networks.
  datatype Config = Config(
    quarantine: int, codes: map<Network, string>, fallback: string, addressFor: AddressFor, notify: B.Notify)

  datatype Kind = Next(receiver: string) | Release(index: int) | Settle(index: int)

  datatype Call =
    | Dispatched(network: Network, kind: Kind)                       // awaiting load
    | Allocated(network: Network, receiver: string, index: int, entry: nat)  // awaiting persist

  // One completed store operation: the chain, the request, and what came of it.
  datatype Entry = Entry(network: Network, request: IS.Request, event: IS.Event)

  // `entry` and `receiver` are not sent; they say what the record came from.
  datatype Record = Record(
    network: Network, paymentCode: string, index: int, address: string, receiver: string, entry: nat)

  datatype State = State(
    shop: B.IdentityState, chains: map<Network, IS.IndexState>,
    calls: seq<Call>, log: seq<Entry>, records: seq<Record>)

  datatype Action =
    | AskNext
    | AskRelease(index: int)
    | AskSettle(index: int)
    | Mutate(call: nat, now: int)
    | Reply(call: nat)
    | Operator(act: B.Act)

  function Start(c: Config, shop: B.IdentityState): State {
    State(shop, map n | n in c.codes :: IS.EMPTY, [], [], [])
  }

  function Receiver(c: Config, s: State, n: Network): string {
    if n in s.shop.networks && s.shop.networks[n].receiver != "" then s.shop.networks[n].receiver else c.fallback
  }

  function RequestOf(k: Kind, now: int): IS.Request {
    match k
    case Next(_) => IS.Allocate(now)
    case Release(i) => IS.Release(i, now)
    case Settle(i) => IS.Settle(i)
  }

  // active() throws for a network without a chain, and next is refused without a receiver.
  function Dispatch(c: Config, s: State, k: Kind): State {
    if s.shop.active !in c.codes then s else s.(calls := s.calls + [Dispatched(s.shop.active, k)])
  }

  function Step(c: Config, s: State, a: Action): State {
    match a
    case AskNext =>
      var r := Receiver(c, s, s.shop.active);
      if r == "" then s else Dispatch(c, s, Next(r))
    case AskRelease(i) => Dispatch(c, s, Release(i))
    case AskSettle(i) => Dispatch(c, s, Settle(i))
    case Mutate(k, now) =>
      if k >= |s.calls| || !s.calls[k].Dispatched? || s.calls[k].network !in s.chains then s
      else
        var call := s.calls[k];
        var request := RequestOf(call.kind, now);
        var (chain, event) := IS.Step(s.chains[call.network], c.quarantine, request);
        s.(chains := s.chains[call.network := chain],
           log := s.log + [Entry(call.network, request, event)],
           calls := if call.kind.Next?
                    then s.calls[k := Allocated(call.network, call.kind.receiver, event.index, |s.log|)]
                    else Splice(s.calls, k))
    case Reply(k) =>
      if k >= |s.calls| || !s.calls[k].Allocated? || s.calls[k].network !in c.codes then s
      else
        s.(calls := Splice(s.calls, k), records := s.records + [RecordFor(c, s.calls[k])])
    case Operator(act) => s.(shop := B.Perform(c.notify, s.shop, act))
  }

  function RecordFor(c: Config, call: Call): Record
    requires call.Allocated? && call.network in c.codes
  {
    var code := c.codes[call.network];
    Record(call.network, code, call.index, c.addressFor(code, call.receiver, call.index, call.network),
           call.receiver, call.entry)
  }

  function Run(c: Config, shop: B.IdentityState, actions: seq<Action>): State {
    if actions == [] then Start(c, shop)
    else Step(c, Run(c, shop, actions[..|actions| - 1]), actions[|actions| - 1])
  }

  // ----- each chain sees its own sequential run

  // The requests that reached network n's store, in order.
  function Project(log: seq<Entry>, n: Network): seq<IS.Request> {
    if log == [] then []
    else
      var e := log[|log| - 1];
      Project(log[..|log| - 1], n) + if e.network == n then [e.request] else []
  }

  lemma ProjectSnoc(log: seq<Entry>, e: Entry, n: Network)
    ensures Project(log + [e], n) == Project(log, n) + if e.network == n then [e.request] else []
  {
    assert (log + [e])[..|log + [e]| - 1] == log;
  }

  lemma {:induction false} ProjectPrefix(log: seq<Entry>, i: nat, n: Network)
    requires i <= |log|
    ensures Project(log[..i], n) <= Project(log, n)
  {
    if i < |log| {
      ProjectPrefix(log[..|log| - 1], i, n);
      assert log[..|log| - 1][..i] == log[..i];
    } else {
      assert log[..i] == log;
    }
  }

  // Where log entry i stands in its own chain's run.
  function Place(log: seq<Entry>, i: nat): nat
    requires i < |log|
  {
    |Project(log[..i], log[i].network)|
  }

  lemma PlaceOrder(log: seq<Entry>, i: nat, j: nat)
    requires i < j < |log| && log[i].network == log[j].network
    ensures Place(log, i) < Place(log, j)
  {
    ProjectSnoc(log[..i], log[i], log[i].network);
    assert log[..i + 1] == log[..i] + [log[i]];
    ProjectPrefix(log[..j], i + 1, log[i].network);
    assert log[..j][..i + 1] == log[..i + 1];
  }

  ghost predicate ChainOk(c: Config, s: State, n: Network)
    requires n in s.chains
  {
    s.chains[n] == IS.Final(c.quarantine, Project(s.log, n))
  }

  ghost predicate EntryOk(c: Config, log: seq<Entry>, i: nat)
    requires i < |log|
  {
    && log[i].network in c.codes
    && log[i].event
       == IS.Step(IS.Final(c.quarantine, Project(log[..i], log[i].network)), c.quarantine, log[i].request).1
  }

  // A call or a record stands for the allocation at its log entry.
  ghost predicate StandsFor(log: seq<Entry>, network: Network, index: int, entry: nat) {
    && entry < |log|
    && log[entry].network == network
    && log[entry].event.Issued? && log[entry].event.index == index
  }

  ghost predicate CallOk(c: Config, log: seq<Entry>, call: Call) {
    && call.network in c.codes
    && (call.Allocated? ==> StandsFor(log, call.network, call.index, call.entry))
  }

  ghost predicate RecordOk(c: Config, log: seq<Entry>, r: Record) {
    && StandsFor(log, r.network, r.index, r.entry)
    && r.network in c.codes && r.paymentCode == c.codes[r.network]
    && r.address == c.addressFor(r.paymentCode, r.receiver, r.index, r.network)
  }

  ghost predicate Consistent(c: Config, s: State) {
    && s.chains.Keys == c.codes.Keys
    && (forall n :: n in s.chains ==> ChainOk(c, s, n))
    && (forall i :: 0 <= i < |s.log| ==> EntryOk(c, s.log, i))
    && (forall k :: 0 <= k < |s.calls| ==> CallOk(c, s.log, s.calls[k]))
    && (forall k :: 0 <= k < |s.records| ==> RecordOk(c, s.log, s.records[k]))
  }

  // The allocations that calls in flight are still to answer, and those that were answered.
  function Owed(calls: seq<Call>): multiset<nat> {
    if calls == [] then multiset{} else Owed(calls[..|calls| - 1]) + OwedBy(calls[|calls| - 1])
  }

  function OwedBy(call: Call): multiset<nat> {
    if call.Allocated? then multiset{call.entry} else multiset{}
  }

  function Told(records: seq<Record>): multiset<nat> {
    if records == [] then multiset{} else Told(records[..|records| - 1]) + multiset{records[|records| - 1].entry}
  }

  // Every allocation is answered at most once.
  ghost predicate OneAnswerEach(s: State) {
    var all := Owed(s.calls) + Told(s.records);
    forall e :: e in all ==> all[e] == 1 && e < |s.log|
  }

  lemma OwedSnoc(calls: seq<Call>, call: Call)
    ensures Owed(calls + [call]) == Owed(calls) + OwedBy(call)
  {
    assert (calls + [call])[..|calls + [call]| - 1] == calls;
  }

  lemma {:induction false} OwedSplice(calls: seq<Call>, k: nat)
    requires k < |calls|
    ensures Owed(calls) == Owed(Splice(calls, k)) + OwedBy(calls[k])
  {
    hide Owed, OwedBy;
    var n := |calls| - 1;
    assert calls == calls[..n] + [calls[n]];
    OwedSnoc(calls[..n], calls[n]);
    if k < n {
      OwedSplice(calls[..n], k);
      assert Splice(calls, k) == Splice(calls[..n], k) + [calls[n]];
      OwedSnoc(Splice(calls[..n], k), calls[n]);
    } else {
      assert Splice(calls, k) == calls[..n];
    }
  }

  lemma {:induction false} OwedReplace(calls: seq<Call>, k: nat, call: Call)
    requires k < |calls|
    ensures Owed(calls[k := call]) + OwedBy(calls[k]) == Owed(calls) + OwedBy(call)
  {
    hide Owed, OwedBy;
    OwedSplice(calls, k);
    OwedSplice(calls[k := call], k);
    assert Splice(calls[k := call], k) == Splice(calls, k);
  }

  lemma {:induction false} ToldHas(records: seq<Record>, i: nat)
    requires i < |records|
    ensures Told(records)[records[i].entry] >= 1
  {
    var n := |records| - 1;
    if i < n { ToldHas(records[..n], i); }
  }

  lemma {:induction false} ToldDistinct(records: seq<Record>, i: nat, j: nat)
    requires i < j < |records| && records[i].entry == records[j].entry
    ensures Told(records)[records[i].entry] >= 2
  {
    var n := |records| - 1;
    if j < n { ToldDistinct(records[..n], i, j); } else { ToldHas(records[..n], i); }
  }

  // A chain's run grows by the request that reached it, and only then.
  lemma ProjectedFinal(log: seq<Entry>, e: Entry, n: Network, q: int)
    ensures IS.Final(q, Project(log + [e], n)) ==
            if e.network == n then IS.Step(IS.Final(q, Project(log, n)), q, e.request).0
            else IS.Final(q, Project(log, n))
  {
    ProjectSnoc(log, e, n);
    var rs := Project(log + [e], n);
    if e.network == n {
      assert rs[..|rs| - 1] == Project(log, n) && rs[|rs| - 1] == e.request;
    } else {
      assert rs == Project(log, n);
    }
  }

  lemma MutateChains(c: Config, s: State, k: nat, now: int)
    requires Consistent(c, s)
    ensures var t := Step(c, s, Mutate(k, now));
            t.chains.Keys == c.codes.Keys && forall n :: n in t.chains ==> ChainOk(c, t, n)
  {
    var t := Step(c, s, Mutate(k, now));
    if t != s {
      forall n | n in t.chains ensures ChainOk(c, t, n) {
        assert ChainOk(c, s, n);
        assert t.log == s.log + [t.log[|s.log|]];
        ProjectedFinal(s.log, t.log[|s.log|], n, c.quarantine);
      }
    }
  }

  lemma MutateEntries(c: Config, s: State, k: nat, now: int)
    requires Consistent(c, s)
    ensures var t := Step(c, s, Mutate(k, now)); forall i :: 0 <= i < |t.log| ==> EntryOk(c, t.log, i)
  {
    var t := Step(c, s, Mutate(k, now));
    if t != s {
      assert CallOk(c, s.log, s.calls[k]) && ChainOk(c, s, s.calls[k].network);
      assert t.log[..|s.log|] == s.log;
      forall i | 0 <= i < |t.log| ensures EntryOk(c, t.log, i) {
        if i < |s.log| { assert EntryOk(c, s.log, i); assert t.log[..i] == s.log[..i]; }
      }
    }
  }

  lemma AllocationIssues(chain: IS.IndexState, q: int, now: int)
    ensures var e := IS.Step(chain, q, IS.Allocate(now)).1; e == IS.Issued(e.index, now)
  {
  }

  lemma MutateCalls(c: Config, s: State, k: nat, now: int)
    requires Consistent(c, s)
    ensures var t := Step(c, s, Mutate(k, now));
            && (forall i :: 0 <= i < |t.calls| ==> CallOk(c, t.log, t.calls[i]))
            && (forall i :: 0 <= i < |t.records| ==> RecordOk(c, t.log, t.records[i]))
  {
    hide IS.Step, ChainOk, EntryOk;
    var t := Step(c, s, Mutate(k, now));
    if t != s {
      var call := s.calls[k];
      if call.kind.Next? { AllocationIssues(s.chains[call.network], c.quarantine, now); }
      forall i | 0 <= i < |t.calls| ensures CallOk(c, t.log, t.calls[i]) {
        var was := if |t.calls| == |s.calls| || i < k then i else i + 1;
        assert CallOk(c, s.log, s.calls[was]) && CallOk(c, s.log, s.calls[k]);
      }
      forall i | 0 <= i < |t.records| ensures RecordOk(c, t.log, t.records[i]) {
        assert RecordOk(c, s.log, s.records[i]);
      }
    }
  }

  lemma ReplyConsistent(c: Config, s: State, k: nat)
    requires Consistent(c, s)
    ensures Consistent(c, Step(c, s, Reply(k)))
  {
    var t := Step(c, s, Reply(k));
    forall n | n in t.chains ensures ChainOk(c, t, n) { assert ChainOk(c, s, n); }
    forall i | 0 <= i < |t.log| ensures EntryOk(c, t.log, i) { assert EntryOk(c, s.log, i); }
    if t != s {
      assert CallOk(c, s.log, s.calls[k]);
      forall i | 0 <= i < |t.calls| ensures CallOk(c, t.log, t.calls[i]) {
        assert CallOk(c, s.log, s.calls[if i < k then i else i + 1]);
      }
      forall i | 0 <= i < |t.records| ensures RecordOk(c, t.log, t.records[i]) {
        if i < |s.records| { assert RecordOk(c, s.log, s.records[i]); }
      }
    }
  }

  lemma StepConsistent(c: Config, s: State, a: Action)
    requires Consistent(c, s)
    ensures Consistent(c, Step(c, s, a))
  {
    match a
    case Mutate(k, now) => MutateChains(c, s, k, now); MutateEntries(c, s, k, now); MutateCalls(c, s, k, now);
    case Reply(k) => ReplyConsistent(c, s, k);
    case _ =>
  }

  lemma DispatchOwesNothing(c: Config, s: State, k: Kind)
    ensures Owed(Dispatch(c, s, k).calls) == Owed(s.calls)
  {
    OwedSnoc(s.calls, Dispatched(s.shop.active, k));
  }

  lemma MutateOwes(c: Config, s: State, k: nat, now: int)
    ensures var t := Step(c, s, Mutate(k, now));
            && t.records == s.records && |s.log| <= |t.log|
            && (Owed(t.calls) <= Owed(s.calls) ||
                (Owed(t.calls) == Owed(s.calls) + multiset{|s.log|} && |s.log| < |t.log|))
  {
    var t := Step(c, s, Mutate(k, now));
    if t != s {
      if s.calls[k].kind.Next? { OwedReplace(s.calls, k, t.calls[k]); } else { OwedSplice(s.calls, k); }
    }
  }

  lemma ReplyMoves(c: Config, s: State, k: nat)
    ensures var t := Step(c, s, Reply(k));
            t.log == s.log && Owed(t.calls) + Told(t.records) == Owed(s.calls) + Told(s.records)
  {
    var t := Step(c, s, Reply(k));
    if t != s {
      OwedSplice(s.calls, k);
      assert t.records[..|s.records|] == s.records;
    }
  }

  lemma NoMoreOwed(s: State, t: State)
    requires OneAnswerEach(s) && |s.log| <= |t.log|
    requires Owed(t.calls) + Told(t.records) <= Owed(s.calls) + Told(s.records)
    ensures OneAnswerEach(t)
  {
    hide Owed, Told;
  }

  lemma OneMoreOwed(s: State, t: State)
    requires OneAnswerEach(s) && |s.log| < |t.log| && t.records == s.records
    requires Owed(t.calls) == Owed(s.calls) + multiset{|s.log|}
    ensures OneAnswerEach(t)
  {
    hide Owed, Told;
    var (was, now) := (Owed(s.calls) + Told(s.records), Owed(t.calls) + Told(t.records));
    assert was[|s.log|] == 0;
    forall e | e in now ensures now[e] == 1 && e < |t.log| {
      if e != |s.log| { assert e in was; }
    }
  }

  lemma StepOneAnswer(c: Config, s: State, a: Action)
    requires OneAnswerEach(s)
    ensures OneAnswerEach(Step(c, s, a))
  {
    hide Owed, Told, OneAnswerEach;
    var t := Step(c, s, a);
    match a
    case AskNext => DispatchOwesNothing(c, s, Next(Receiver(c, s, s.shop.active))); NoMoreOwed(s, t);
    case AskRelease(i) => DispatchOwesNothing(c, s, Release(i)); NoMoreOwed(s, t);
    case AskSettle(i) => DispatchOwesNothing(c, s, Settle(i)); NoMoreOwed(s, t);
    case Mutate(k, now) =>
      MutateOwes(c, s, k, now);
      if Owed(t.calls) <= Owed(s.calls) { NoMoreOwed(s, t); } else { OneMoreOwed(s, t); }
    case Reply(k) => ReplyMoves(c, s, k); NoMoreOwed(s, t);
    case Operator(_) => NoMoreOwed(s, t);
  }

  lemma {:induction false} RunConsistent(c: Config, shop: B.IdentityState, actions: seq<Action>)
    ensures Consistent(c, Run(c, shop, actions)) && OneAnswerEach(Run(c, shop, actions))
  {
    if actions != [] {
      var before := Run(c, shop, actions[..|actions| - 1]);
      RunConsistent(c, shop, actions[..|actions| - 1]);
      StepConsistent(c, before, actions[|actions| - 1]);
      StepOneAnswer(c, before, actions[|actions| - 1]);
    }
  }

  /** Refinement: however requests, replies and switches interleave, every chain is in the state
      of a sequential run of exactly the requests that reached it. */
  lemma ChainsRunIndependently(c: Config, shop: B.IdentityState, actions: seq<Action>, n: Network)
    requires n in c.codes
    ensures var s := Run(c, shop, actions);
            && n in s.chains
            && s.chains[n] == IS.Final(c.quarantine, Project(s.log, n))
            && IS.Partition(s.chains[n])
  {
    RunConsistent(c, shop, actions);
    var s := Run(c, shop, actions);
    assert ChainOk(c, s, n);
    IS.RunAgrees(c.quarantine, Project(s.log, n));
  }

  /** A record names the network, payment code and index of one allocation on one chain, and its
      address is derived from the same three, whatever was switched while it was in flight. */
  lemma RecordsAreOfOneChain(c: Config, shop: B.IdentityState, actions: seq<Action>, k: nat)
    requires k < |Run(c, shop, actions).records|
    ensures var s := Run(c, shop, actions);
            var r := s.records[k];
            && r.entry < |s.log| && s.log[r.entry].network == r.network
            && s.log[r.entry].request.Allocate?
            && s.log[r.entry].event == IS.Issued(r.index, s.log[r.entry].request.now)
            && r.network in c.codes && r.paymentCode == c.codes[r.network]
            && r.address == c.addressFor(r.paymentCode, r.receiver, r.index, r.network)
  {
    RunConsistent(c, shop, actions);
    var s := Run(c, shop, actions);
    assert RecordOk(c, s.log, s.records[k]);
    assert EntryOk(c, s.log, s.records[k].entry);
  }

  lemma EntryEvent(c: Config, log: seq<Entry>, i: nat)
    requires i < |log| && EntryOk(c, log, i)
    ensures var rs := Project(log, log[i].network);
            Place(log, i) < |rs| && IS.Events(c.quarantine, rs)[Place(log, i)] == log[i].event
  {
    hide IS.Step, Project;
    var n := log[i].network;
    var p := Place(log, i);
    assert log[..i + 1] == log[..i] + [log[i]];
    ProjectSnoc(log[..i], log[i], n);
    ProjectPrefix(log, i + 1, n);
    var rs := Project(log, n);
    assert rs[..p] == Project(log[..i], n) && rs[p] == log[i].request;
    IR.EventAt(c.quarantine, rs, p);
  }

  lemma {:induction false} EntryOfPlace(log: seq<Entry>, n: Network, p: nat) returns (i: nat)
    requires p < |Project(log, n)|
    ensures i < |log| && log[i].network == n && Place(log, i) == p
  {
    var last := |log| - 1;
    if p < |Project(log[..last], n)| {
      i := EntryOfPlace(log[..last], n, p);
      assert log[..last][..i] == log[..i];
    } else {
      i := last;
    }
  }

  // Two allocations of one index on one chain are separated by a rested release on that chain.
  lemma EntriesRested(c: Config, log: seq<Entry>, i: nat, j: nat) returns (m: nat)
    requires i < j < |log| && forall k :: i <= k <= j ==> EntryOk(c, log, k)
    requires log[i].network == log[j].network && log[i].event.Issued? && log[j].event.Issued?
    requires log[i].event.index == log[j].event.index
    ensures i < m < j && RestedRelease(log, m, j, c.quarantine)
  {
    var n := log[i].network;
    EntryEvent(c, log, i);
    EntryEvent(c, log, j);
    PlaceOrder(log, i, j);
    var k := RestedBetween(c.quarantine, Project(log, n), Place(log, i), Place(log, j), log[i].event.index);
    m := EntryOfPlace(log, n, k);
    PlaceBetween(log, i, m, j);
    EntryEvent(c, log, m);
  }

  lemma PlaceBetween(log: seq<Entry>, i: nat, m: nat, j: nat)
    requires i < |log| && m < |log| && j < |log|
    requires log[i].network == log[m].network == log[j].network
    requires Place(log, i) < Place(log, m) < Place(log, j)
    ensures i < m < j
  {
    if m < i { PlaceOrder(log, m, i); }
    if j < m { PlaceOrder(log, j, m); }
  }

  lemma RestedBetween(q: int, rs: seq<IS.Request>, i: nat, j: nat, x: int) returns (k: nat)
    requires i < j < |rs|
    requires IS.Events(q, rs)[i].Issued? && IS.Events(q, rs)[i].index == x
    requires IS.Events(q, rs)[j].Issued? && IS.Events(q, rs)[j].index == x
    ensures i < k < j && IS.Events(q, rs)[k].Returned? && IS.Events(q, rs)[k].index == x
    ensures IS.Events(q, rs)[j].now - IS.Events(q, rs)[k].at >= q
  {
    IR.ReissueIsSafe(q, rs, i, j, x);
    k :| i < k < j && IS.Events(q, rs)[k].Returned? && IS.Events(q, rs)[k].index == x
         && IS.Events(q, rs)[j].now - IS.Events(q, rs)[k].at >= q;
  }

  // Entry m released, on the same chain, the index that entry j hands out, at least q before.
  predicate RestedRelease(log: seq<Entry>, m: nat, j: nat, q: int)
    requires m < j < |log|
  {
    && log[m].network == log[j].network
    && log[m].event.Returned? && log[j].event.Issued? && log[m].event.index == log[j].event.index
    && log[j].event.now - log[m].event.at >= q
  }

  /** Two records that quote the same index of the same network stand for two allocations of that
      chain, and between them the index was released there and rested the whole quarantine. */
  lemma NoTwoLiveQuotes(c: Config, shop: B.IdentityState, actions: seq<Action>, a: nat, b: nat)
    requires var s := Run(c, shop, actions);
             && a < |s.records| && b < |s.records| && a != b
             && s.records[a].network == s.records[b].network && s.records[a].index == s.records[b].index
             && s.records[a].entry <= s.records[b].entry
    ensures var s := Run(c, shop, actions);
            && s.records[a].entry < s.records[b].entry < |s.log|
            && exists m :: s.records[a].entry < m < s.records[b].entry
                           && RestedRelease(s.log, m, s.records[b].entry, c.quarantine)
  {
    RunConsistent(c, shop, actions);
    var m := QuotesRested(c, Run(c, shop, actions), a, b);
  }

  lemma QuotesRested(c: Config, s: State, a: nat, b: nat) returns (m: nat)
    requires Consistent(c, s) && OneAnswerEach(s)
    requires a < |s.records| && b < |s.records| && a != b
    requires s.records[a].network == s.records[b].network && s.records[a].index == s.records[b].index
    requires s.records[a].entry <= s.records[b].entry
    ensures s.records[a].entry < m < s.records[b].entry < |s.log|
    ensures RestedRelease(s.log, m, s.records[b].entry, c.quarantine)
  {
    assert RecordOk(c, s.log, s.records[a]) && RecordOk(c, s.log, s.records[b]);
    if s.records[a].entry == s.records[b].entry {
      if a < b { ToldDistinct(s.records, a, b); } else { ToldDistinct(s.records, b, a); }
      assert s.records[a].entry in Owed(s.calls) + Told(s.records);
      assert false;
    }
    m := EntriesRested(c, s.log, s.records[a].entry, s.records[b].entry);
  }

  /** Once an index is settled on a network, no record made later quotes it there. */
  lemma SettledNeverQuotedAgain(c: Config, shop: B.IdentityState, actions: seq<Action>, i: nat, k: nat)
    requires var s := Run(c, shop, actions);
             && i < |s.log| && s.log[i].event.Retired? && k < |s.records|
             && s.records[k].network == s.log[i].network && s.records[k].index == s.log[i].event.index
    ensures Run(c, shop, actions).records[k].entry < i
  {
    hide Run, EntryOk, ChainOk, CallOk, IS.Step;
    RunConsistent(c, shop, actions);
    var s := Run(c, shop, actions);
    assert RecordOk(c, s.log, s.records[k]);
    RetiredBefore(c, s.log, i, s.records[k].entry);
  }

  lemma RetiredBefore(c: Config, log: seq<Entry>, i: nat, e: nat)
    requires i < |log| && e < |log| && EntryOk(c, log, i) && EntryOk(c, log, e)
    requires log[i].network == log[e].network && log[i].event.Retired? && log[e].event.Issued?
    requires log[i].event.index == log[e].event.index
    ensures e < i
  {
    hide EntryOk, Project, IS.Events;
    if e > i {
      EntryEvent(c, log, i);
      EntryEvent(c, log, e);
      PlaceOrder(log, i, e);
      var rs := Project(log, log[i].network);
      IR.RetiredNeverReturns(c.quarantine, rs, Place(log, i), Place(log, e), log[i].event.index);
    }
  }

  // ----- which quote a release or a settlement is about

  // What the operator does while a call is under way.
  function Meanwhile(c: Config, s: State, acts: seq<B.Act>): State {
    if acts == [] then s else Step(c, Meanwhile(c, s, acts[..|acts| - 1]), Operator(acts[|acts| - 1]))
  }

  lemma {:induction false} MeanwhileKeeps(c: Config, s: State, acts: seq<B.Act>)
    ensures var t := Meanwhile(c, s, acts); t.chains == s.chains && t.calls == s.calls
  {
    if acts != [] { MeanwhileKeeps(c, s, acts[..|acts| - 1]); }
  }

  lemma EndsLiveness(chain: IS.IndexState, q: int, r: IS.Request, x: int)
    requires IS.Partition(chain) && (r.Settle? || r.Release?) && r.index == x
    ensures x !in IS.Step(chain, q, r).0.issued
    ensures x in chain.issued ==> forall e :: e in IS.Step(chain, q, r).0.reclaimed && e.index == x <==>
                                              r.Release? && e == IS.Reclaimed(x, r.now)
  {
    var k := IndexOf(chain.issued, x);
    if k < |chain.issued| { SpliceDistinct(chain.issued, k); }
  }

  lemma MutateOneChain(c: Config, s: State, k: nat, n: Network, kind: Kind, now: int)
    requires k < |s.calls| && s.calls[k] == Dispatched(n, kind) && n in s.chains
    ensures Step(c, s, Mutate(k, now)).chains
         == s.chains[n := IS.Step(s.chains[n], c.quarantine, RequestOf(kind, now)).0]
  {
    hide IS.Step;
  }

  predicate About(a: Action, x: int) {
    a == AskRelease(x) || a == AskSettle(x)
  }

  // The quote's index has been neither released nor settled on its own network.
  predicate Live(s: State, r: Record) {
    r.network in s.chains && r.index in s.chains[r.network].issued
  }

  // The index of a record rests on its network, since then.
  predicate Rests(s: State, r: Record, since: int) {
    r.network in s.chains && IS.Reclaimed(r.index, since) in s.chains[r.network].reclaimed
  }

  /** A release or a settlement asked for a live quote ends that quote if and only if the network
      active when it is asked is the quote's, whatever the operator does before it is carried out.
      A release leaves the index resting from then on, a settlement does not. */
  lemma ReleaseFreesIff(c: Config, shop: B.IdentityState, actions: seq<Action>, k: nat, a: Action, acts: seq<B.Act>,
                        now: int)
    requires var s := Run(c, shop, actions);
             k < |s.records| && Live(s, s.records[k]) && About(a, s.records[k].index) && s.shop.active in c.codes
    ensures var s := Run(c, shop, actions);
      var t := Step(c, Meanwhile(c, Step(c, s, a), acts), Mutate(|s.calls|, now));
      && (Live(t, s.records[k]) <==> s.shop.active != s.records[k].network)
      && (s.shop.active == s.records[k].network ==>
            forall since :: Rests(t, s.records[k], since) <==> a.AskRelease? && since == now)
  {
    hide Run, Consistent;
    RunConsistent(c, shop, actions);
    var s := Run(c, shop, actions);
    ReleaseEnds(c, s, s.records[k], a, acts, now);
  }

  function KindOf(a: Action): Kind
    requires a.AskRelease? || a.AskSettle?
  {
    if a.AskRelease? then Release(a.index) else Settle(a.index)
  }

  // Asked, and carried out after whatever the operator does: it is about the network active when asked.
  lemma CarriedOut(c: Config, s: State, a: Action, acts: seq<B.Act>, now: int)
    requires (a.AskRelease? || a.AskSettle?) && s.shop.active in c.codes && s.shop.active in s.chains
    ensures var n := s.shop.active;
      Step(c, Meanwhile(c, Step(c, s, a), acts), Mutate(|s.calls|, now)).chains
      == s.chains[n := IS.Step(s.chains[n], c.quarantine, RequestOf(KindOf(a), now)).0]
  {
    hide IS.Step, Meanwhile;
    var u := Meanwhile(c, Step(c, s, a), acts);
    MeanwhileKeeps(c, Step(c, s, a), acts);
    assert u.calls == s.calls + [Dispatched(s.shop.active, KindOf(a))] && u.chains == s.chains;
    MutateOneChain(c, u, |s.calls|, s.shop.active, KindOf(a), now);
  }

  lemma ReleaseEnds(c: Config, s: State, r: Record, a: Action, acts: seq<B.Act>, now: int)
    requires Consistent(c, s) && Live(s, r) && About(a, r.index) && s.shop.active in c.codes
    ensures var t := Step(c, Meanwhile(c, Step(c, s, a), acts), Mutate(|s.calls|, now));
      && (Live(t, r) <==> s.shop.active != r.network)
      && (s.shop.active == r.network ==> forall since :: Rests(t, r, since) <==> a.AskRelease? && since == now)
  {
    hide IS.Step, RecordOk, EntryOk, CallOk, Meanwhile, IS.Final, Project, Step, IS.Partition;
    var n := s.shop.active;
    assert ChainOk(c, s, n);
    CarriedOut(c, s, a, acts, now);
    IS.RunAgrees(c.quarantine, Project(s.log, n));
    EndsLiveness(s.chains[n], c.quarantine, RequestOf(KindOf(a), now), r.index);
  }

  lemma RunSnoc(c: Config, shop: B.IdentityState, actions: seq<Action>, a: Action)
    ensures Run(c, shop, actions + [a]) == Step(c, Run(c, shop, actions), a)
  {
    assert (actions + [a])[..|actions + [a]| - 1] == actions;
  }

  // The first quote on a network: index 0.
  lemma FirstQuote(c: Config, shop: B.IdentityState, actions: seq<Action>) returns (later: seq<Action>)
    requires var s := Run(c, shop, actions);
             && c.fallback != "" && s.calls == [] && s.shop.active in c.codes && s.shop.active in s.chains
             && s.chains[s.shop.active] == IS.EMPTY
    ensures var (s, t) := (Run(c, shop, actions), Run(c, shop, later));
            && t.shop == s.shop && t.calls == []
            && t.chains == s.chains[s.shop.active := IS.IndexState(1, [], [0])]
            && |t.records| == |s.records| + 1 && t.records[..|s.records|] == s.records
            && t.records[|s.records|].network == s.shop.active && t.records[|s.records|].index == 0
  {
    hide Run;
    var s := Run(c, shop, actions);
    var n := s.shop.active;
    IR.AllocateFresh(IS.EMPTY, c.quarantine, 0);
    assert [] + [0] == [0];
    RunSnoc(c, shop, actions, AskNext);
    RunSnoc(c, shop, actions + [AskNext], Mutate(0, 0));
    RunSnoc(c, shop, actions + [AskNext] + [Mutate(0, 0)], Reply(0));
    later := actions + [AskNext] + [Mutate(0, 0)] + [Reply(0)];
    hide IS.Step;
    var s1 := Step(c, s, AskNext);
    assert s1.calls == [Dispatched(n, Next(Receiver(c, s, n)))];
    var s2 := Step(c, s1, Mutate(0, 0));
    assert s2.calls == [Allocated(n, Receiver(c, s, n), 0, |s.log|)];
    assert Splice(s2.calls, 0) == [];
  }

  /** Two live quotes of index 0 on two networks: a release asked for the first, after the operator
      switched, frees the second and leaves the first as it is. */
  lemma ReleaseFreesAnotherQuote(c: Config, shop: B.IdentityState, other: Network) returns (actions: seq<Action>)
    requires c.fallback != "" && shop.active in c.codes && other in c.codes && other in shop.networks
    requires other != shop.active
    ensures var s := Run(c, shop, actions);
      && |s.records| == 2 && s.records[0].index == 0 && s.records[1].index == 0
      && s.records[0].network == shop.active && s.records[1].network == other
      && shop.active in s.chains && other in s.chains
      && s.chains[shop.active].issued == [0] && s.chains[other].issued == [0]
      && var t := Step(c, Step(c, s, AskRelease(s.records[0].index)), Mutate(|s.calls|, 0));
         && shop.active in t.chains && other in t.chains
         && t.chains[shop.active].issued == [0] && t.chains[other].issued == []
  {
    assert Run(c, shop, []) == Start(c, shop);
    actions := FirstQuote(c, shop, []);
    RunSnoc(c, shop, actions, Operator(B.Activate(other)));
    actions := actions + [Operator(B.Activate(other))];
    actions := FirstQuote(c, shop, actions);
    var s := Run(c, shop, actions);
    hide Run;
    IR.ReleaseOldest(s.chains[other], c.quarantine, 0);
    assert [0][1..] == [];
    hide IS.Step;
    var s1 := Step(c, s, AskRelease(0));
    assert s1.calls == [Dispatched(other, Release(0))];
    MutateOneChain(c, s1, 0, other, Release(0), 0);
    hide Step;
  }

  // ----- whose receiver a record derives from

  // What the operator did, of all that happened.
  function Operated(actions: seq<Action>): seq<B.Act> {
    if actions == [] then []
    else
      var last := actions[|actions| - 1];
      Operated(actions[..|actions| - 1]) + if last.Operator? then [last.act] else []
  }

  lemma {:induction false} ShopIs(c: Config, shop: B.IdentityState, actions: seq<Action>)
    ensures Run(c, shop, actions).shop == B.PerformAll(c.notify, shop, Operated(actions))
  {
    hide B.Perform, Step;
    if actions != [] {
      var (before, last) := (actions[..|actions| - 1], actions[|actions| - 1]);
      ShopIs(c, shop, before);
      StepShop(c, Run(c, shop, before), last);
      if last.Operator? {
        var acts := Operated(actions);
        assert acts[..|acts| - 1] == Operated(before);
      } else {
        assert Operated(actions) == Operated(before);
      }
    }
  }

  lemma StepShop(c: Config, s: State, a: Action)
    ensures Step(c, s, a).shop == if a.Operator? then B.Perform(c.notify, s.shop, a.act) else s.shop
  {
    hide B.Perform, IS.Step;
  }

  // The code the operator's last accepted binding on n left, announced or not.
  function Bound(c: Config, shop: B.IdentityState, actions: seq<Action>, n: Network): string {
    B.BoundBy(c.notify, shop, Operated(actions), n)
  }

  lemma ReceiverIs(c: Config, shop: B.IdentityState, actions: seq<Action>, n: Network)
    ensures var bound := Bound(c, shop, actions, n);
      Receiver(c, Run(c, shop, actions), n) == if bound != "" then bound else c.fallback
  {
    hide B.BoundBy, B.PerformAll, Operated;
    ShopIs(c, shop, actions);
    B.BoundIs(c.notify, shop, Operated(actions), n);
  }

  // After i of the actions, n was traded on, and r was the code bound there or else the fallback.
  ghost predicate ReceiverAt(c: Config, shop: B.IdentityState, actions: seq<Action>, i: nat, n: Network, r: string)
    requires i <= |actions|
  {
    var bound := Bound(c, shop, actions[..i], n);
    && Run(c, shop, actions[..i]).shop.active == n
    && r != "" && r == if bound != "" then bound else c.fallback
  }

  /** A next is refused if and only if nothing is bound on the network traded on and there is no
      fallback. Allocated and replied to, whatever the operator does in between, it gives a record of
      that network that derives from the code bound when it was asked, announced or not, and from
      the fallback exactly when none was. */
  lemma NextUsesBound(c: Config, shop: B.IdentityState, actions: seq<Action>, early: seq<B.Act>, late: seq<B.Act>,
                      now: int)
    requires Run(c, shop, actions).shop.active in c.codes
    ensures var s := Run(c, shop, actions);
      var (n, asked) := (s.shop.active, Step(c, s, AskNext));
      var bound := Bound(c, shop, actions, n);
      && (asked == s <==> bound == "" && c.fallback == "")
      && (asked != s ==>
            var t := Step(c, Meanwhile(c, asked, early), Mutate(|s.calls|, now));
            var u := Step(c, Meanwhile(c, t, late), Reply(|s.calls|));
            && |u.records| == |s.records| + 1 && u.records[..|s.records|] == s.records
            && var r := u.records[|s.records|];
               && r.network == n && r.receiver == (if bound != "" then bound else c.fallback)
               && r.paymentCode == c.codes[n] && r.address == c.addressFor(c.codes[n], r.receiver, r.index, n))
  {
    hide Run, IS.Step, Meanwhile, Bound, Consistent;
    RunConsistent(c, shop, actions);
    var s := Run(c, shop, actions);
    ReceiverIs(c, shop, actions, s.shop.active);
    var asked := Step(c, s, AskNext);
    if asked != s {
      assert s.chains.Keys == c.codes.Keys by { ChainsAreCodes(c, s); }
      NextAnswered(c, s, early, late, now);
    }
  }

  lemma ChainsAreCodes(c: Config, s: State)
    requires Consistent(c, s)
    ensures s.chains.Keys == c.codes.Keys
  {
  }

  lemma {:induction false} MeanwhileRecords(c: Config, s: State, acts: seq<B.Act>)
    ensures Meanwhile(c, s, acts).records == s.records
  {
    if acts != [] { MeanwhileRecords(c, s, acts[..|acts| - 1]); }
  }

  lemma NextAnswered(c: Config, s: State, early: seq<B.Act>, late: seq<B.Act>, now: int)
    requires s.shop.active in c.codes && s.shop.active in s.chains && Receiver(c, s, s.shop.active) != ""
    ensures var (n, asked) := (s.shop.active, Step(c, s, AskNext));
      var t := Step(c, Meanwhile(c, asked, early), Mutate(|s.calls|, now));
      var u := Step(c, Meanwhile(c, t, late), Reply(|s.calls|));
      && asked != s && |u.records| == |s.records| + 1 && u.records[..|s.records|] == s.records
      && var r := u.records[|s.records|];
         && r.network == n && r.receiver == Receiver(c, s, n)
         && r.paymentCode == c.codes[n] && r.address == c.addressFor(c.codes[n], r.receiver, r.index, n)
  {
    hide IS.Step, Meanwhile, Receiver;
    var (n, k) := (s.shop.active, |s.calls|);
    var asked := Step(c, s, AskNext);
    assert asked.calls == s.calls + [Dispatched(n, Next(Receiver(c, s, n)))];
    MeanwhileKeeps(c, asked, early);
    MeanwhileRecords(c, asked, early);
    var t := Step(c, Meanwhile(c, asked, early), Mutate(k, now));
    assert |t.calls| > k && t.calls[k].Allocated?;
    assert t.calls[k].network == n && t.calls[k].receiver == Receiver(c, s, n);
    MeanwhileKeeps(c, t, late);
    MeanwhileRecords(c, t, late);
  }

  ghost predicate WasReceiver(c: Config, shop: B.IdentityState, actions: seq<Action>, n: Network, r: string) {
    exists i :: 0 <= i <= |actions| && ReceiverAt(c, shop, actions, i, n, r)
  }

  // The receiver a call carries, if it is to derive.
  function Carried(call: Call): Option<string> {
    match call
    case Dispatched(_, Next(r)) => Some(r)
    case Allocated(_, r, _, _) => Some(r)
    case _ => None
  }

  ghost predicate CallsFrom(c: Config, shop: B.IdentityState, actions: seq<Action>, calls: seq<Call>) {
    forall k :: 0 <= k < |calls| && Carried(calls[k]).Some? ==>
      WasReceiver(c, shop, actions, calls[k].network, Carried(calls[k]).value)
  }

  ghost predicate RecordsFrom(c: Config, shop: B.IdentityState, actions: seq<Action>, records: seq<Record>) {
    forall k :: 0 <= k < |records| ==> WasReceiver(c, shop, actions, records[k].network, records[k].receiver)
  }

  lemma WasReceiverLater(c: Config, shop: B.IdentityState, actions: seq<Action>, n: Network, r: string)
    requires actions != [] && WasReceiver(c, shop, actions[..|actions| - 1], n, r)
    ensures WasReceiver(c, shop, actions, n, r)
  {
    var before := actions[..|actions| - 1];
    var i :| 0 <= i <= |before| && ReceiverAt(c, shop, before, i, n, r);
    assert before[..i] == actions[..i];
    assert ReceiverAt(c, shop, actions, i, n, r);
  }

  // The calls after a step are calls from before it, the call a next started, or an allocation
  // that carries what its call did.
  lemma StepCarries(c: Config, s: State, a: Action, k: nat)
    requires k < |Step(c, s, a).calls| && Carried(Step(c, s, a).calls[k]).Some?
    ensures var call := Step(c, s, a).calls[k];
      || (exists j :: 0 <= j < |s.calls| && s.calls[j].network == call.network && Carried(s.calls[j]) == Carried(call))
      || (call.network == s.shop.active && Carried(call).value != ""
          && Carried(call).value == Receiver(c, s, call.network))
  {
    hide IS.Step;
    var t := Step(c, s, a);
    if k < |s.calls| && Carried(s.calls[k]) == Carried(t.calls[k]) && s.calls[k].network == t.calls[k].network {
    } else if t.calls != s.calls && (a.Mutate? || a.Reply?) {
      var j := if |t.calls| == |s.calls| || k < a.call then k else k + 1;
      assert s.calls[j].network == t.calls[k].network && Carried(s.calls[j]) == Carried(t.calls[k]);
    }
  }

  // So are the records.
  lemma StepRecords(c: Config, s: State, a: Action, k: nat)
    requires k < |Step(c, s, a).records|
    ensures var r := Step(c, s, a).records[k];
      || (k < |s.records| && s.records[k] == r)
      || (k == |s.records| && exists j :: 0 <= j < |s.calls| && s.calls[j].network == r.network
                                          && Carried(s.calls[j]) == Some(r.receiver))
  {
    hide IS.Step;
    var t := Step(c, s, a);
    if k >= |s.records| { assert s.calls[a.call].network == t.records[k].network; }
  }

  lemma {:induction false} AllCarryReceivers(c: Config, shop: B.IdentityState, actions: seq<Action>)
    ensures var s := Run(c, shop, actions);
      CallsFrom(c, shop, actions, s.calls) && RecordsFrom(c, shop, actions, s.records)
  {
    hide Step, WasReceiver, Receiver;
    if actions != [] {
      var (before, a) := (actions[..|actions| - 1], actions[|actions| - 1]);
      var (s, t) := (Run(c, shop, before), Run(c, shop, actions));
      AllCarryReceivers(c, shop, before);
      forall k | 0 <= k < |t.calls| && Carried(t.calls[k]).Some?
        ensures WasReceiver(c, shop, actions, t.calls[k].network, Carried(t.calls[k]).value)
      {
        CallCarries(c, shop, actions, k);
      }
      forall k | 0 <= k < |t.records|
        ensures WasReceiver(c, shop, actions, t.records[k].network, t.records[k].receiver)
      {
        StepRecords(c, s, a, k);
        WasReceiverLater(c, shop, actions, t.records[k].network, t.records[k].receiver);
      }
    }
  }

  lemma CallCarries(c: Config, shop: B.IdentityState, actions: seq<Action>, k: nat)
    requires actions != [] && CallsFrom(c, shop, actions[..|actions| - 1], Run(c, shop, actions[..|actions| - 1]).calls)
    requires k < |Run(c, shop, actions).calls| && Carried(Run(c, shop, actions).calls[k]).Some?
    ensures var call := Run(c, shop, actions).calls[k]; WasReceiver(c, shop, actions, call.network, Carried(call).value)
  {
    hide Step, WasReceiver, Receiver, Bound;
    var (before, a) := (actions[..|actions| - 1], actions[|actions| - 1]);
    var (s, call) := (Run(c, shop, before), Run(c, shop, actions).calls[k]);
    StepCarries(c, s, a, k);
    if j :| 0 <= j < |s.calls| && s.calls[j].network == call.network && Carried(s.calls[j]) == Carried(call) {
      WasReceiverLater(c, shop, actions, call.network, Carried(call).value);
    } else {
      assert before[..|before|] == before;
      WasReceiverNow(c, shop, before, call.network, Carried(call).value);
      WasReceiverLater(c, shop, actions, call.network, Carried(call).value);
    }
  }

  lemma WasReceiverNow(c: Config, shop: B.IdentityState, actions: seq<Action>, n: Network, r: string)
    requires var s := Run(c, shop, actions); s.shop.active == n && r != "" && r == Receiver(c, s, n)
    ensures WasReceiver(c, shop, actions, n, r)
  {
    hide Run, Receiver, Bound;
    ReceiverIs(c, shop, actions, n);
    assert actions[..|actions|] == actions;
    assert ReceiverAt(c, shop, actions, |actions|, n, r);
  }

  /** The receiver a record's address derives from was, when the record was asked for, the one
      bound on the record's own network, or the fallback when none was. */
  lemma RecordsDeriveFromTheirReceiver(c: Config, shop: B.IdentityState, actions: seq<Action>, k: nat)
    requires k < |Run(c, shop, actions).records|
    ensures var r := Run(c, shop, actions).records[k];
      && r.network in c.codes && r.address == c.addressFor(c.codes[r.network], r.receiver, r.index, r.network)
      && WasReceiver(c, shop, actions, r.network, r.receiver)
  {
    hide Run, WasReceiver;
    AllCarryReceivers(c, shop, actions);
    RecordsAreOfOneChain(c, shop, actions, k);
  }

  // Network n has the announced receiver r, and no call on it carries another.
  ghost predicate Settled(c: Config, s: State, n: Network, r: string) {
    && B.ReceiversOk(c.notify, s.shop) && n in s.shop.networks
    && B.Frozen(s.shop.networks[n]) && s.shop.networks[n].receiver == r
    && OnlyCarry(s.calls, n, r)
  }

  ghost predicate OnlyCarry(calls: seq<Call>, n: Network, r: string) {
    forall k :: 0 <= k < |calls| && calls[k].network == n && Carried(calls[k]).Some? ==> Carried(calls[k]).value == r
  }

  ghost predicate OnlyRecord(records: seq<Record>, from: nat, n: Network, r: string) {
    forall k :: from <= k < |records| && records[k].network == n ==> records[k].receiver == r
  }

  lemma StepStaysSettled(c: Config, s: State, a: Action, n: Network, r: string)
    requires Settled(c, s, n, r)
    ensures Settled(c, Step(c, s, a), n, r)
  {
    hide IS.Step, B.ReceiversOk, B.Perform;
    var t := Step(c, s, a);
    if a.Operator? { B.StepFollows(c.notify, s.shop, a.act); }
    assert Receiver(c, s, n) == r;
    forall k | 0 <= k < |t.calls| && t.calls[k].network == n && Carried(t.calls[k]).Some?
      ensures Carried(t.calls[k]).value == r
    {
      StepCarries(c, s, a, k);
    }
  }

  /** Once a network's receiver is announced, and no earlier call on that network is under way with
      another, every later record of the network derives from that receiver. */
  lemma {:induction false} AnnouncedReceiverIsUsed(
    c: Config, shop: B.IdentityState, actions: seq<Action>, j: nat, n: Network, r: string)
    requires j <= |actions| && Settled(c, Run(c, shop, actions[..j]), n, r)
    ensures Settled(c, Run(c, shop, actions), n, r)
    ensures |Run(c, shop, actions[..j]).records| <= |Run(c, shop, actions).records|
    ensures OnlyRecord(Run(c, shop, actions).records, |Run(c, shop, actions[..j]).records|, n, r)
  {
    hide Step, Settled;
    if j == |actions| {
      assert actions[..j] == actions;
    } else {
      var (before, a) := (actions[..|actions| - 1], actions[|actions| - 1]);
      var (s, t) := (Run(c, shop, before), Run(c, shop, actions));
      assert before[..j] == actions[..j];
      AnnouncedReceiverIsUsed(c, shop, before, j, n, r);
      StepStaysSettled(c, s, a, n, r);
      RecordsGrow(c, s, a);
      SettledCarries(c, s, n, r);
      forall k | |Run(c, shop, actions[..j]).records| <= k < |t.records| && t.records[k].network == n
        ensures t.records[k].receiver == r
      {
        StepRecords(c, s, a, k);
      }
    }
  }

  lemma SettledCarries(c: Config, s: State, n: Network, r: string)
    requires Settled(c, s, n, r)
    ensures OnlyCarry(s.calls, n, r)
  {
  }

  lemma RecordsGrow(c: Config, s: State, a: Action)
    ensures |s.records| <= |Step(c, s, a).records|
  {
    hide IS.Step;
  }
}
