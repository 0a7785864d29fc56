/** gateway/gateway.mjs over stores that crash: calls, replies and network switches as in Gateway,
    each network's store as in IndexCrash. The process may die at any step and start again; what
    was quoted to customers stays quoted. */
module Restarts {
  import opened Prelude
  import IS = IndexState
  import IC = IndexCrash
  import G = Gateway
  import B = Bootstrap

  // The `entry` of a call or a record is here the number of the write it came from.
  datatype State = State(
    shop: B.IdentityState, chains: map<G.Network, IC.System>, calls: seq<G.Call>, records: seq<G.Record>)

  // Front is a request being dispatched or the operator's action, as in Gateway. A restart ends all
  // calls, reloads every store and goes on with whatever shop state the start-up returned.
  datatype Action =
    | Front(action: G.Action)
    | Mutate(call: nat, now: int)
    | Rename(network: G.Network, place: nat)
    | Reply(call: nat)
    | Restart(shop: B.IdentityState)

  function Start(c: G.Config, shop: B.IdentityState): State {
    State(shop, map n | n in c.codes :: IC.START, [], [])
  }

  function Dispatch(c: G.Config, s: State, a: G.Action): State {
    if a.Mutate? || a.Reply? then s
    else
      var t := G.Step(c, G.State(s.shop, map[], s.calls, [], []), a);
      s.(shop := t.shop, calls := t.calls)
  }

  function Step(c: G.Config, s: State, a: Action): State {
    match a
    case Front(action) => Dispatch(c, s, action)
    case Mutate(k, now) =>
      if k >= |s.calls| || !s.calls[k].Dispatched? || s.calls[k].network !in s.chains then s
      else
        var (n, kind) := (s.calls[k].network, s.calls[k].kind);
        var (y, request) := (s.chains[n], G.RequestOf(kind, now));
        var event := IS.Step(y.mem, c.quarantine, request).1;
        s.(chains := s.chains[n := IC.Next(y, c.quarantine, IC.Begin(request))],
           calls := if kind.Next? then s.calls[k := G.Allocated(n, kind.receiver, event.index, y.begun)]
                    else Splice(s.calls, k))
    case Rename(n, p) =>
      if n !in s.chains then s
      else s.(chains := s.chains[n := IC.Next(s.chains[n], c.quarantine, IC.Rename(p))])
    case Reply(k) =>
      if k >= |s.calls| || !s.calls[k].Allocated? || s.calls[k].network !in s.chains
         || s.calls[k].network !in c.codes || s.calls[k].entry !in s.chains[s.calls[k].network].waiting then s
      else
        var n := s.calls[k].network;
        s.(chains := s.chains[n := IC.Next(s.chains[n], c.quarantine, IC.Answer(s.calls[k].entry))],
           calls := Splice(s.calls, k), records := s.records + [G.RecordFor(c, s.calls[k])])
    case Restart(shop) =>
      State(shop, map n | n in s.chains :: IC.Next(s.chains[n], c.quarantine, IC.Crash), [], s.records)
  }

  function Run(c: G.Config, shop: B.IdentityState, actions: seq<Action>): State {
    if actions == [] then Start(c, shop)
    else Step(c, Run(c, shop, actions[..|actions| - 1]), actions[|actions| - 1])
  }

  // ----- every store does what a store of IndexCrash does

  ghost predicate Reached(q: int, y: IC.System) {
    exists actions :: y == IC.After(q, actions)
  }

  lemma ReachedNext(q: int, y: IC.System, a: IC.Action)
    requires Reached(q, y)
    ensures Reached(q, IC.Next(y, q, a))
  {
    var actions :| y == IC.After(q, actions);
    IC.AfterSnoc(q, actions, a);
    assert IC.Next(y, q, a) == IC.After(q, actions + [a]);
  }

  lemma ReachedSound(q: int, y: IC.System)
    requires Reached(q, y)
    ensures IC.OnLine(y, q) && IC.Numbered(y)
  {
    var actions :| y == IC.After(q, actions);
    IC.AlwaysOnLine(q, actions);
  }

  // The step network n's store takes when the gateway takes a, if any.
  ghost predicate Moves(q: int, a: Action, y: IC.System, z: IC.System) {
    if a.Restart? then z == IC.Next(y, q, IC.Crash)
    else z == y || exists b: IC.Action :: b != IC.Crash && z == IC.Next(y, q, b)
  }

  lemma StepMoves(c: G.Config, s: State, a: Action, n: G.Network)
    requires n in s.chains
    ensures var t := Step(c, s, a); n in t.chains && Moves(c.quarantine, a, s.chains[n], t.chains[n])
  {
    hide IC.Next, IS.Step;
  }

  lemma MovesReached(q: int, a: Action, y: IC.System, z: IC.System)
    requires Reached(q, y) && Moves(q, a, y, z)
    ensures Reached(q, z)
  {
    hide Reached, IC.Next;
    if a.Restart? {
      ReachedNext(q, y, IC.Crash);
    } else if z != y {
      var b: IC.Action :| b != IC.Crash && z == IC.Next(y, q, b);
      ReachedNext(q, y, b);
    }
  }

  // ----- what every step keeps

  // The write a call or a record came from.
  predicate Pending(y: IC.System, entry: nat, index: int) {
    && entry !in y.answered && entry < y.begun
    && forall p :: 0 <= p < |y.line| && y.line[p].number == entry ==>
         y.line[p].event.Issued? && y.line[p].event.index == index
  }

  predicate Told(y: IC.System, entry: nat, index: int) {
    entry in y.answered && y.answered[entry].Issued? && y.answered[entry].index == index
  }

  ghost predicate CallOk(s: State, call: G.Call) {
    call.Allocated? ==> call.network in s.chains && Pending(s.chains[call.network], call.entry, call.index)
  }

  ghost predicate RecordOk(s: State, r: G.Record) {
    r.network in s.chains && Told(s.chains[r.network], r.entry, r.index)
  }

  predicate SameStore(a: G.Call, b: G.Call) {
    a.Allocated? && b.Allocated? && a.network == b.network
  }

  ghost predicate OneCallEach(calls: seq<G.Call>) {
    forall i, j :: 0 <= i < j < |calls| && SameStore(calls[i], calls[j]) ==> calls[i].entry != calls[j].entry
  }

  ghost predicate OneRecordEach(records: seq<G.Record>) {
    forall i, j :: 0 <= i < j < |records| && records[i].network == records[j].network ==>
      records[i].entry != records[j].entry
  }

  ghost predicate Sound(c: G.Config, s: State) {
    && s.chains.Keys == c.codes.Keys
    && (forall n :: n in s.chains ==> Reached(c.quarantine, s.chains[n]))
    && (forall i :: 0 <= i < |s.calls| ==> CallOk(s, s.calls[i]))
    && (forall i :: 0 <= i < |s.records| ==> RecordOk(s, s.records[i]))
    && OneCallEach(s.calls) && OneRecordEach(s.records)
  }

  // Nothing pending or told becomes otherwise.
  ghost predicate Keeps(y: IC.System, z: IC.System) {
    && (forall entry, index :: Pending(y, entry, index) ==> Pending(z, entry, index))
    && (forall entry, index :: Told(y, entry, index) ==> Told(z, entry, index))
  }

  lemma BeginKeeps(q: int, y: IC.System, request: IS.Request)
    ensures Keeps(y, IC.Next(y, q, IC.Begin(request)))
  {
    hide IS.Step;
  }

  lemma RenameKeeps(q: int, y: IC.System, p: nat)
    ensures Keeps(y, IC.Next(y, q, IC.Rename(p)))
  {
  }

  // An allocation is a write of its own.
  lemma BeginPends(q: int, y: IC.System, now: int)
    requires IC.Numbered(y)
    ensures var event := IS.Step(y.mem, q, IS.Allocate(now)).1;
      event.Issued? && Pending(IC.Next(y, q, IC.Begin(IS.Allocate(now))), y.begun, event.index)
  {
  }

  lemma AnswerKeeps(q: int, y: IC.System, m: nat, entry: nat, index: int)
    requires entry != m
    ensures var z := IC.Next(y, q, IC.Answer(m));
      && (Pending(y, entry, index) ==> Pending(z, entry, index))
      && (Told(y, entry, index) ==> Told(z, entry, index))
  {
  }

  lemma AnswerTells(q: int, y: IC.System, m: nat, index: int)
    requires IC.Numbered(y) && m in y.waiting && Pending(y, m, index)
    ensures Told(IC.Next(y, q, IC.Answer(m)), m, index)
  {
    assert IC.Has(y.line, m, y.waiting[m]);
  }

  lemma CrashKeeps(q: int, y: IC.System, entry: nat, index: int)
    requires Told(y, entry, index)
    ensures Told(IC.Next(y, q, IC.Crash), entry, index)
  {
  }

  // One store moves on.
  lemma StoreMoves(c: G.Config, s: State, n: G.Network, z: IC.System)
    requires Sound(c, s) && n in s.chains && Reached(c.quarantine, z) && Keeps(s.chains[n], z)
    ensures Sound(c, s.(chains := s.chains[n := z]))
  {
    hide Reached, Pending, Told;
    var t := s.(chains := s.chains[n := z]);
    forall i | 0 <= i < |t.calls| ensures CallOk(t, t.calls[i]) { assert CallOk(s, s.calls[i]); }
    forall i | 0 <= i < |t.records| ensures RecordOk(t, t.records[i]) { assert RecordOk(s, s.records[i]); }
  }

  lemma CallsChange(c: G.Config, s: State, calls: seq<G.Call>)
    requires Sound(c, s) && OneCallEach(calls) && forall i :: 0 <= i < |calls| ==> CallOk(s, calls[i])
    ensures Sound(c, s.(calls := calls))
  {
    hide Reached, Pending, Told, OneCallEach;
    var t := s.(calls := calls);
    forall i | 0 <= i < |calls| ensures CallOk(t, calls[i]) { assert CallOk(s, calls[i]); }
    forall i | 0 <= i < |t.records| ensures RecordOk(t, t.records[i]) { assert RecordOk(s, s.records[i]); }
  }

  lemma CallEnds(c: G.Config, s: State, k: nat)
    requires Sound(c, s) && k < |s.calls|
    ensures Sound(c, s.(calls := Splice(s.calls, k)))
  {
    hide Reached, Pending, Told, CallOk, RecordOk, OneRecordEach;
    var calls := Splice(s.calls, k);
    forall i | 0 <= i < |calls| ensures CallOk(s, calls[i]) {
      assert CallOk(s, s.calls[if i < k then i else i + 1]);
    }
    SplicedEach(s.calls, k);
    CallsChange(c, s, calls);
  }

  lemma SplicedEach(calls: seq<G.Call>, k: nat)
    requires k < |calls| && OneCallEach(calls)
    ensures OneCallEach(Splice(calls, k))
  {
    var t := Splice(calls, k);
    forall i, j | 0 <= i < j < |t| && SameStore(t[i], t[j])
      ensures t[i].entry != t[j].entry
    {
      assert t[i] == calls[if i < k then i else i + 1] && t[j] == calls[if j < k then j else j + 1];
    }
  }

  ghost predicate NewEntry(calls: seq<G.Call>, call: G.Call)
    requires call.Allocated?
  {
    forall i :: 0 <= i < |calls| && SameStore(calls[i], call) ==> calls[i].entry != call.entry
  }

  lemma CallAllocates(c: G.Config, s: State, k: nat, call: G.Call)
    requires Sound(c, s) && k < |s.calls| && call.Allocated? && CallOk(s, call) && NewEntry(s.calls, call)
    ensures Sound(c, s.(calls := s.calls[k := call]))
  {
    hide Reached, Pending, Told, RecordOk, OneRecordEach;
    var calls := s.calls[k := call];
    forall i | 0 <= i < |calls| ensures CallOk(s, calls[i]) {
      if i != k { assert CallOk(s, s.calls[i]); }
    }
    CallsChange(c, s, calls);
  }

  lemma MutateKeeps(c: G.Config, s: State, k: nat, now: int)
    requires Sound(c, s)
    ensures Sound(c, Step(c, s, Mutate(k, now)))
  {
    hide Reached, Pending, Told, IC.Next, IS.Step, Sound, Keeps;
    var t := Step(c, s, Mutate(k, now));
    if t != s {
      var (n, kind) := (s.calls[k].network, s.calls[k].kind);
      var (y, request) := (s.chains[n], G.RequestOf(kind, now));
      var z := IC.Next(y, c.quarantine, IC.Begin(request));
      StoreReached(c, s, n);
      ReachedNext(c.quarantine, y, IC.Begin(request));
      BeginKeeps(c.quarantine, y, request);
      StoreMoves(c, s, n, z);
      var u := s.(chains := s.chains[n := z]);
      if kind.Next? {
        ReachedSound(c.quarantine, y);
        BeginPends(c.quarantine, y, now);
        AllBefore(c, s, n);
        CallAllocates(c, u, k, t.calls[k]);
      } else {
        CallEnds(c, u, k);
      }
    }
  }

  lemma StoreReached(c: G.Config, s: State, n: G.Network)
    requires Sound(c, s) && n in s.chains
    ensures Reached(c.quarantine, s.chains[n])
  {
    hide Reached;
  }

  // No call has the number of the write that is begun next.
  lemma AllBefore(c: G.Config, s: State, n: G.Network)
    requires Sound(c, s) && n in s.chains
    ensures forall i :: 0 <= i < |s.calls| && s.calls[i].Allocated? && s.calls[i].network == n ==>
              s.calls[i].entry < s.chains[n].begun
  {
    hide Reached;
    forall i | 0 <= i < |s.calls| && s.calls[i].Allocated? && s.calls[i].network == n
      ensures s.calls[i].entry < s.chains[n].begun
    {
      assert CallOk(s, s.calls[i]);
    }
  }

  lemma ReplyReached(c: G.Config, s: State, k: nat)
    requires Sound(c, s)
    ensures var t := Step(c, s, Reply(k));
      t.chains.Keys == c.codes.Keys && forall n :: n in t.chains ==> Reached(c.quarantine, t.chains[n])
  {
    hide Reached, IC.Next, CallOk, RecordOk, Moves;
    var t := Step(c, s, Reply(k));
    forall n | n in t.chains ensures Reached(c.quarantine, t.chains[n]) {
      StepMoves(c, s, Reply(k), n);
      MovesReached(c.quarantine, Reply(k), s.chains[n], t.chains[n]);
    }
  }

  lemma ReplyTells(c: G.Config, s: State, k: nat)
    requires Sound(c, s) && Step(c, s, Reply(k)) != s
    ensures RecordOk(Step(c, s, Reply(k)), G.RecordFor(c, s.calls[k]))
  {
    hide Reached, IC.Next, Told, Pending;
    var call := s.calls[k];
    assert CallOk(s, call);
    ReachedSound(c.quarantine, s.chains[call.network]);
    AnswerTells(c.quarantine, s.chains[call.network], call.entry, call.index);
  }

  lemma ReplyKeeps(c: G.Config, s: State, k: nat)
    requires Sound(c, s)
    ensures Sound(c, Step(c, s, Reply(k)))
  {
    hide Reached, IC.Next, OneCallEach, RecordOk, CallOk, Told, Pending;
    var t := Step(c, s, Reply(k));
    if t != s {
      ReplyReached(c, s, k);
      ReplyTells(c, s, k);
      SplicedEach(s.calls, k);
      forall i | 0 <= i < |t.calls| ensures CallOk(t, t.calls[i]) { OtherCall(c, s, k, i); }
      forall i | 0 <= i < |s.records|
        ensures RecordOk(t, s.records[i])
        ensures s.records[i].network == s.calls[k].network ==> s.records[i].entry != s.calls[k].entry
      {
        OtherRecord(c, s, k, i);
      }
    }
  }

  lemma OtherCall(c: G.Config, s: State, k: nat, i: nat)
    requires Sound(c, s) && Step(c, s, Reply(k)) != s && i < |Splice(s.calls, k)|
    ensures CallOk(Step(c, s, Reply(k)), Splice(s.calls, k)[i])
  {
    hide Reached, IC.Next, Told, Pending;
    var (call, j) := (s.calls[k], if i < k then i else i + 1);
    var other := s.calls[j];
    assert CallOk(s, other) && Splice(s.calls, k)[i] == other;
    if other.Allocated? && other.network == call.network {
      AnswerKeeps(c.quarantine, s.chains[call.network], call.entry, other.entry, other.index);
    }
  }

  lemma OtherRecord(c: G.Config, s: State, k: nat, i: nat)
    requires Sound(c, s) && Step(c, s, Reply(k)) != s && i < |s.records|
    ensures RecordOk(Step(c, s, Reply(k)), s.records[i])
    ensures s.records[i].network == s.calls[k].network ==> s.records[i].entry != s.calls[k].entry
  {
    hide Reached, IC.Next;
    var (call, r) := (s.calls[k], s.records[i]);
    assert CallOk(s, call) && RecordOk(s, r);
    if r.network == call.network {
      AnswerKeeps(c.quarantine, s.chains[call.network], call.entry, r.entry, r.index);
    }
  }

  lemma RestartKeeps(c: G.Config, s: State, shop: B.IdentityState)
    requires Sound(c, s)
    ensures Sound(c, Step(c, s, Restart(shop)))
  {
    hide Reached, IC.Next, Told, Pending;
    var t := Step(c, s, Restart(shop));
    forall n | n in t.chains ensures Reached(c.quarantine, t.chains[n]) {
      ReachedNext(c.quarantine, s.chains[n], IC.Crash);
    }
    forall i | 0 <= i < |t.records| ensures RecordOk(t, t.records[i]) {
      var r := s.records[i];
      assert RecordOk(s, r);
      CrashKeeps(c.quarantine, s.chains[r.network], r.entry, r.index);
    }
  }

  // What a dispatch does to the calls: one more, not yet carried out, or nothing.
  lemma DispatchCalls(c: G.Config, s: State, a: G.Action)
    ensures var t := Dispatch(c, s, a);
      && t == s.(shop := t.shop, calls := t.calls)
      && (t.calls == s.calls || (|t.calls| == |s.calls| + 1 && t.calls[..|s.calls|] == s.calls
                                 && t.calls[|s.calls|].Dispatched?))
  {
    hide B.Perform;
  }

  lemma FrontKeeps(c: G.Config, s: State, a: G.Action)
    requires Sound(c, s)
    ensures Sound(c, Step(c, s, Front(a)))
  {
    hide Reached, Told, Pending, Dispatch;
    DispatchCalls(c, s, a);
    var t := Dispatch(c, s, a);
    forall i | 0 <= i < |t.calls| ensures CallOk(s, t.calls[i]) {
      if i < |s.calls| { assert t.calls[i] == s.calls[i] && CallOk(s, s.calls[i]); }
    }
    forall i | 0 <= i < |s.calls| ensures t.calls[i] == s.calls[i] {}
    CallsChange(c, s, t.calls);
    ShopChanges(c, s.(calls := t.calls), t.shop);
  }

  lemma ShopChanges(c: G.Config, s: State, shop: B.IdentityState)
    requires Sound(c, s)
    ensures Sound(c, s.(shop := shop))
  {
    hide Reached, Told, Pending;
    var t := s.(shop := shop);
    forall i | 0 <= i < |t.calls| ensures CallOk(t, t.calls[i]) { assert CallOk(s, s.calls[i]); }
    forall i | 0 <= i < |t.records| ensures RecordOk(t, t.records[i]) { assert RecordOk(s, s.records[i]); }
  }

  lemma StepSound(c: G.Config, s: State, a: Action)
    requires Sound(c, s)
    ensures Sound(c, Step(c, s, a))
  {
    match a
    case Front(action) => FrontKeeps(c, s, action);
    case Mutate(k, now) => MutateKeeps(c, s, k, now);
    case Rename(n, p) =>
      hide Sound, Reached, Keeps, IC.Next;
      if n in s.chains {
        StoreReached(c, s, n);
        ReachedNext(c.quarantine, s.chains[n], IC.Rename(p));
        RenameKeeps(c.quarantine, s.chains[n], p);
        StoreMoves(c, s, n, IC.Next(s.chains[n], c.quarantine, IC.Rename(p)));
      }
    case Reply(k) => ReplyKeeps(c, s, k);
    case Restart(shop) => RestartKeeps(c, s, shop);
  }

  lemma StartSound(c: G.Config, shop: B.IdentityState)
    ensures Sound(c, Start(c, shop))
  {
    assert IC.START == IC.After(c.quarantine, []);
  }

  lemma {:induction false} RunSound(c: G.Config, shop: B.IdentityState, actions: seq<Action>)
    ensures Sound(c, Run(c, shop, actions))
  {
    hide Sound, Step;
    if actions == [] {
      StartSound(c, shop);
    } else {
      RunSound(c, shop, actions[..|actions| - 1]);
      StepSound(c, Run(c, shop, actions[..|actions| - 1]), actions[|actions| - 1]);
    }
  }

  // ----- when no quote is forgotten

  // No quote of network n is newer than what a restart now would reload.
  ghost predicate NoneNewerAt(c: G.Config, shop: B.IdentityState, actions: seq<Action>, i: nat, n: G.Network)
    requires i <= |actions|
  {
    var s := Run(c, shop, actions[..i]); n in s.chains && IC.NoneNewer(s.chains[n])
  }

  ghost predicate HarmlessRestarts(c: G.Config, shop: B.IdentityState, actions: seq<Action>, n: G.Network) {
    forall i :: 0 <= i < |actions| && actions[i].Restart? ==> NoneNewerAt(c, shop, actions, i, n)
  }

  lemma IntactMoves(q: int, a: Action, y: IC.System, z: IC.System)
    requires Reached(q, y) && Moves(q, a, y, z)
    ensures IC.Intact(z) <==> IC.Intact(y) && (a.Restart? ==> IC.NoneNewer(y))
  {
    hide Reached, IC.Next, IC.Intact, IC.NoneNewer, IC.OnLine, IC.Numbered;
    ReachedSound(q, y);
    if z != y {
      var b: IC.Action :| z == IC.Next(y, q, b) && (b == IC.Crash <==> a.Restart?);
      if !IC.Intact(y) {
        IC.StaysForgotten(y, q, b);
      } else if a.Restart? {
        IC.CrashKeepsAnswersIff(y, q);
      } else {
        IC.StaysIntact(y, q, b);
      }
    } else if a.Restart? && IC.Intact(y) {
      IC.CrashKeepsAnswersIff(y, q);
    }
  }

  /** Over every run, every quote of a network is in the run its store goes on from if and only if
      each restart came when no quote of it was newer than the write renamed last. */
  lemma {:induction false} QuotesKeptIff(c: G.Config, shop: B.IdentityState, actions: seq<Action>, n: G.Network)
    requires n in c.codes
    ensures var s := Run(c, shop, actions);
      n in s.chains && (IC.Intact(s.chains[n]) <==> HarmlessRestarts(c, shop, actions, n))
  {
    hide Step, IC.Intact, IC.NoneNewer, Reached;
    RunSound(c, shop, actions);
    if actions == [] {
      IC.StartsIntact();
    } else {
      var m := |actions| - 1;
      var (before, a) := (actions[..m], actions[m]);
      var s := Run(c, shop, before);
      QuotesKeptIff(c, shop, before, n);
      RunSound(c, shop, before);
      StepMoves(c, s, a, n);
      IntactMoves(c.quarantine, a, s.chains[n], Step(c, s, a).chains[n]);
      forall i | 0 <= i < m ensures NoneNewerAt(c, shop, before, i, n) <==> NoneNewerAt(c, shop, actions, i, n) {
        assert before[..i] == actions[..i];
      }
      assert HarmlessRestarts(c, shop, actions, n) <==>
             HarmlessRestarts(c, shop, before, n) && (a.Restart? ==> NoneNewerAt(c, shop, actions, m, n));
    }
  }

  /** Two records that quote one index of one network, before and after any number of restarts none
      of which forgets a quote, come from different writes, and between those the index was released
      there and rested the whole quarantine. */
  lemma NoTwoLiveQuotesAcrossRestarts(
    c: G.Config, shop: B.IdentityState, actions: seq<Action>, a: nat, b: nat)
    requires var s := Run(c, shop, actions);
      && a < |s.records| && b < |s.records| && a != b
      && s.records[a].network == s.records[b].network && s.records[a].index == s.records[b].index
      && s.records[a].entry <= s.records[b].entry
      && s.records[a].network in c.codes && HarmlessRestarts(c, shop, actions, s.records[a].network)
    ensures var s := Run(c, shop, actions);
      var (r, t) := (s.records[a], s.records[b]);
      && r.network in s.chains && r.entry < t.entry && t.entry in s.chains[r.network].answered
      && RestedBetween(s.chains[r.network], r.entry, t.entry, r.index, c.quarantine)
  {
    hide Step, IC.Intact, HarmlessRestarts;
    RunSound(c, shop, actions);
    var s := Run(c, shop, actions);
    var (r, t) := (s.records[a], s.records[b]);
    QuotesKeptIff(c, shop, actions, r.network);
    assert RecordOk(s, r) && RecordOk(s, t);
    var y := s.chains[r.network];
    var writes :| y == IC.After(c.quarantine, writes);
    hide Run, Sound, IC.After;
    IC.AnswersNeverCollide(c.quarantine, writes, r.entry, t.entry, r.index);
  }

  // Between the two writes the index was released, and the second found it rested.
  ghost predicate RestedBetween(y: IC.System, m: nat, n: nat, x: int, q: int)
    requires n in y.answered
  {
    && y.answered[n].Issued?
    && exists k :: 0 <= k < |y.line| && m < y.line[k].number < n && y.line[k].event.Returned?
                   && y.line[k].event.index == x && y.answered[n].now - y.line[k].event.at >= q
  }
}
