/** The shop's identity across restarts: gateway/bootstrap.ts under makeShop of
    gateway/gateway.mjs:240-275. Operator actions change the state in memory, each is saved by a
    write-then-rename that takes its time, and the process may die and start again at any step. */
module ShopLife {
  import opened Prelude
  import opened Bootstrap

  // `mem` is None when no process runs; `saves` are the snapshots still to be renamed.
  datatype Life = Life(disk: Disk, mem: Option<IdentityState>, saves: seq<IdentityState>)

  // Boot ends what runs, and is a start that would mint this seed and dies after so many writes; 2
  // is one that returns. Land renames a snapshot over the file, Fail gives one up.
  datatype Action =
    | Boot(minted: Seed, writes: nat)
    | Do(act: Act)
    | Save
    | Land(save: nat)
    | Fail(save: nat)

  datatype Keys = Keys(derive: Derive, notify: Notify)

  function Step(k: Keys, l: Life, a: Action): Life {
    match a
    case Boot(minted, writes) =>
      var outcome := StartUp(k.derive, l.disk, minted).outcome;
      Life(DiskAfter(k.derive, l.disk, minted, writes),
           if writes >= 2 && outcome.Ok? then Some(outcome.value) else None, [])
    case Do(act) =>
      if l.mem.None? then l else l.(mem := Some(Perform(k.notify, l.mem.value, act)))
    case Save =>
      if l.mem.None? then l else l.(saves := l.saves + [l.mem.value])
    case Land(i) =>
      if i >= |l.saves| then l
      else l.(disk := l.disk.(state := Some(l.saves[i])), saves := Splice(l.saves, i))
    case Fail(i) =>
      if i >= |l.saves| then l else l.(saves := Splice(l.saves, i))
  }

  function Run(k: Keys, d: Disk, actions: seq<Action>): Life {
    if actions == [] then Life(d, None, [])
    else Step(k, Run(k, d, actions[..|actions| - 1]), actions[|actions| - 1])
  }

  // ----- what every step keeps

  // One state became the other in memory.
  ghost predicate Leads(x: IdentityState, y: IdentityState) {
    x.networks.Keys == y.networks.Keys && forall n :: n in x.networks ==> Follows(x.networks[n], y.networks[n])
  }

  ghost predicate Usable(k: Keys, d: Disk) {
    d.state.Some? ==> ReceiversOk(k.notify, d.state.value)
  }

  // The file and every snapshot are states that memory came through.
  ghost predicate Sound(k: Keys, l: Life) {
    && Usable(k, l.disk)
    && (l.mem.None? ==> l.saves == [])
    && (l.mem.Some? ==>
          && ReceiversOk(k.notify, l.mem.value)
          && l.disk.state.Some? && Leads(l.disk.state.value, l.mem.value)
          && forall i :: 0 <= i < |l.saves| ==> Came(k, l.saves[i], l.mem.value))
  }

  ghost predicate Came(k: Keys, x: IdentityState, mem: IdentityState) {
    ReceiversOk(k.notify, x) && Leads(x, mem)
  }

  lemma LeadsFurther(x: IdentityState, y: IdentityState, z: IdentityState)
    requires Leads(x, y) && Leads(y, z)
    ensures Leads(x, z)
  {
    hide Frozen;
    assert forall n :: n in x.networks ==> n in y.networks && Follows(x.networks[n], y.networks[n]);
  }

  // A start leaves on disk what it returns, and a state only ever as usable as the one it found.
  lemma StartedOnDisk(k: Keys, d: Disk, minted: Seed, writes: nat)
    requires Usable(k, d)
    ensures Usable(k, DiskAfter(k.derive, d, minted, writes))
    ensures var r := StartUp(k.derive, d, minted).outcome;
      writes >= 2 && r.Ok? ==>
        DiskAfter(k.derive, d, minted, writes).state == Some(r.value) && ReceiversOk(k.notify, r.value)
  {
    StartMeetsReceiversOk(k.derive, k.notify, d, minted);
    hide Grown, FirstState, Disagrees, ReceiversOk;
  }

  lemma LeadsItself(x: IdentityState)
    ensures Leads(x, x)
  {
  }

  lemma DoKeeps(k: Keys, l: Life, act: Act)
    requires Sound(k, l) && l.mem.Some?
    ensures Sound(k, Step(k, l, Do(act)))
  {
    hide Perform, ReceiversOk, Leads;
    var (m, t) := (l.mem.value, Perform(k.notify, l.mem.value, act));
    ActLeads(k, m, act);
    LeadsFurther(l.disk.state.value, m, t);
    forall i | 0 <= i < |l.saves| ensures Came(k, l.saves[i], t) { LeadsFurther(l.saves[i], m, t); }
  }

  lemma ActLeads(k: Keys, m: IdentityState, act: Act)
    requires ReceiversOk(k.notify, m)
    ensures var t := Perform(k.notify, m, act); ReceiversOk(k.notify, t) && Leads(m, t)
  {
    StepFollows(k.notify, m, act);
  }

  lemma StepKeeps(k: Keys, l: Life, a: Action)
    requires Sound(k, l)
    ensures Sound(k, Step(k, l, a))
  {
    hide ReceiversOk, Leads, StartUp, DiskAfter, Perform;
    match a
    case Boot(minted, writes) =>
      StartedOnDisk(k, l.disk, minted, writes);
      var r := StartUp(k.derive, l.disk, minted).outcome;
      if r.Ok? { LeadsItself(r.value); }
    case Do(act) => if l.mem.Some? { DoKeeps(k, l, act); }
    case Save => if l.mem.Some? { LeadsItself(l.mem.value); }
    case Land(i) => if i < |l.saves| { assert Came(k, l.saves[i], l.mem.value); }
    case Fail(_) =>
  }

  lemma {:induction false} RunKeeps(k: Keys, d: Disk, actions: seq<Action>)
    requires Usable(k, d)
    ensures Sound(k, Run(k, d, actions))
  {
    hide Sound, Step;
    if actions == [] {
      StartsSound(k, d);
    } else {
      RunKeeps(k, d, actions[..|actions| - 1]);
      StepKeeps(k, Run(k, d, actions[..|actions| - 1]), actions[|actions| - 1]);
    }
  }

  lemma StartsSound(k: Keys, d: Disk)
    requires Usable(k, d)
    ensures Sound(k, Life(d, None, []))
  {
  }

  // ----- what is recorded stays

  // Whatever was recorded of the shop's own codes and addresses is still recorded.
  ghost predicate Recorded(was: Option<IdentityState>, now: Option<IdentityState>) {
    was.Some? ==> now.Some? && forall n :: n in was.value.networks ==>
      n in now.value.networks && SameShop(was.value.networks[n], now.value.networks[n])
  }

  predicate SameShop(was: Block, now: Block) {
    && now.paymentCode == was.paymentCode
    && now.notificationAddress == was.notificationAddress
    && (was.depositAddress != "" ==> now.depositAddress == was.depositAddress)
  }

  lemma RecordedFurther(x: Option<IdentityState>, y: Option<IdentityState>, z: Option<IdentityState>)
    requires Recorded(x, y) && Recorded(y, z)
    ensures Recorded(x, z)
  {
    assert x.Some? ==> forall n :: n in x.value.networks ==>
      n in y.value.networks && SameShop(x.value.networks[n], y.value.networks[n]);
  }

  // Two states that memory came through are of one shop.
  lemma OneShop(x: IdentityState, y: IdentityState, mem: IdentityState)
    requires Leads(x, mem) && Leads(y, mem)
    ensures Recorded(Some(x), Some(y))
  {
    hide Frozen;
    forall n | n in x.networks ensures n in y.networks && SameShop(x.networks[n], y.networks[n]) {
      assert n in y.networks && Follows(x.networks[n], mem.networks[n]) && Follows(y.networks[n], mem.networks[n]);
    }
  }

  // What a start leaves on disk where a state was.
  ghost predicate OnlyGrown(x: IdentityState, y: IdentityState) {
    forall n :: n in x.networks ==>
      n in y.networks && y.networks[n].(depositAddress := "") == x.networks[n].(depositAddress := "")
                      && (x.networks[n].depositAddress != "" ==> y.networks[n] == x.networks[n])
  }

  lemma StartOnlyGrows(k: Keys, d: Disk, minted: Seed, writes: nat)
    ensures var e := DiskAfter(k.derive, d, minted, writes);
      d.state.Some? ==> e.state.Some? && OnlyGrown(d.state.value, e.state.value)
  {
    hide Disagrees, FirstState;
  }

  lemma StepRecords(k: Keys, l: Life, a: Action)
    requires Sound(k, l)
    ensures Recorded(l.disk.state, Step(k, l, a).disk.state)
  {
    hide ReceiversOk, Leads, Perform;
    match a
    case Boot(minted, writes) =>
      StartOnlyGrows(k, l.disk, minted, writes);
      hide StartUp, DiskAfter;
    case Land(i) =>
      if i < |l.saves| {
        assert Came(k, l.saves[i], l.mem.value);
        OneShop(l.disk.state.value, l.saves[i], l.mem.value);
      }
    case _ =>
  }

  /** Over any mix of starts that die anywhere, operator actions and saves that land in any order,
      no payment code, notification address or deposit address once on disk ever changes, and the
      running process has them all. */
  lemma {:induction false} RecordedForGood(k: Keys, d: Disk, actions: seq<Action>, i: nat)
    requires Usable(k, d) && i <= |actions|
    ensures var (l, m) := (Run(k, d, actions[..i]), Run(k, d, actions));
      && Recorded(l.disk.state, m.disk.state)
      && (m.mem.Some? ==> Recorded(l.disk.state, m.mem))
  {
    hide Step, Recorded;
    RunKeeps(k, d, actions);
    var m := Run(k, d, actions);
    if i == |actions| {
      assert actions[..i] == actions;
      RecordedItself(m.disk.state);
    } else {
      var before := actions[..|actions| - 1];
      assert before[..i] == actions[..i];
      RecordedForGood(k, d, before, i);
      RunKeeps(k, d, before);
      StepRecords(k, Run(k, d, before), actions[|actions| - 1]);
      RecordedFurther(Run(k, d, actions[..i]).disk.state, Run(k, d, before).disk.state, m.disk.state);
    }
    if m.mem.Some? {
      LeadsItself(m.mem.value);
      OneShop(m.disk.state.value, m.mem.value, m.mem.value);
      RecordedFurther(Run(k, d, actions[..i]).disk.state, m.disk.state, m.mem);
    }
  }

  lemma RecordedItself(x: Option<IdentityState>)
    ensures Recorded(x, x)
  {
  }

  // ----- announced receivers

  predicate Announced(s: IdentityState, n: Network) {
    n in s.networks && Frozen(s.networks[n])
  }

  // Every announced receiver of the one is the announced receiver of the other.
  ghost predicate StillAnnounced(was: Option<IdentityState>, now: Option<IdentityState>) {
    was.Some? ==> now.Some? && forall n :: Announced(was.value, n) ==>
      Announced(now.value, n) && now.value.networks[n].receiver == was.value.networks[n].receiver
  }

  // What lands knows of every announcement on disk.
  ghost predicate LandsInformed(l: Life, a: Action) {
    a.Land? && a.save < |l.saves| && l.disk.state.Some? ==>
      forall n :: Announced(l.disk.state.value, n) ==> Announced(l.saves[a.save], n)
  }

  ghost predicate InformedAt(k: Keys, d: Disk, actions: seq<Action>, i: nat)
    requires i < |actions|
  {
    LandsInformed(Run(k, d, actions[..i]), actions[i])
  }

  ghost predicate StillAt(k: Keys, d: Disk, actions: seq<Action>, i: nat, j: nat)
    requires i <= j <= |actions|
  {
    StillAnnounced(Run(k, d, actions[..i]).disk.state, Run(k, d, actions[..j]).disk.state)
  }

  lemma StillFurther(x: Option<IdentityState>, y: Option<IdentityState>, z: Option<IdentityState>)
    requires StillAnnounced(x, y) && StillAnnounced(y, z)
    ensures StillAnnounced(x, z)
  {
    hide Announced;
    assert x.Some? ==> forall n :: Announced(x.value, n) ==> Announced(y.value, n);
  }

  // A block announced in two states that memory came through has one receiver in both.
  lemma OneReceiver(x: IdentityState, y: IdentityState, mem: IdentityState, n: Network)
    requires Leads(x, mem) && Leads(y, mem) && Announced(x, n) && Announced(y, n)
    ensures y.networks[n].receiver == x.networks[n].receiver
  {
    assert Follows(x.networks[n], mem.networks[n]) && Follows(y.networks[n], mem.networks[n]);
  }

  lemma NothingAnnounced(x: Option<IdentityState>)
    ensures StillAnnounced(None, x)
  {
  }

  lemma StepStillIff(k: Keys, l: Life, a: Action)
    requires Sound(k, l)
    ensures StillAnnounced(l.disk.state, Step(k, l, a).disk.state) <==> LandsInformed(l, a)
  {
    hide ReceiversOk, Leads, Perform, Announced, StillAnnounced;
    StillItself(l.disk.state);
    match a
    case Boot(minted, writes) =>
      StartOnlyGrows(k, l.disk, minted, writes);
      hide StartUp, DiskAfter;
      if l.disk.state.Some? {
        GrownAnnounced(l.disk.state.value, DiskAfter(k.derive, l.disk, minted, writes).state.value);
      } else {
        NothingAnnounced(DiskAfter(k.derive, l.disk, minted, writes).state);
      }
    case Land(i) =>
      if i < |l.saves| {
        assert Came(k, l.saves[i], l.mem.value);
        SameAnnouncements(l.disk.state.value, l.saves[i], l.mem.value);
      }
    case _ =>
  }

  lemma SameAnnouncements(x: IdentityState, y: IdentityState, mem: IdentityState)
    requires Leads(x, mem) && Leads(y, mem)
    ensures StillAnnounced(Some(x), Some(y)) <==> forall n :: Announced(x, n) ==> Announced(y, n)
  {
    hide Leads;
    forall n | Announced(x, n) && Announced(y, n) ensures y.networks[n].receiver == x.networks[n].receiver {
      OneReceiver(x, y, mem, n);
    }
  }

  lemma GrownAnnounced(x: IdentityState, y: IdentityState)
    requires OnlyGrown(x, y)
    ensures StillAnnounced(Some(x), Some(y))
  {
    forall n | Announced(x, n)
      ensures Announced(y, n) && y.networks[n].receiver == x.networks[n].receiver
    {
      assert y.networks[n].(depositAddress := "") == x.networks[n].(depositAddress := "");
    }
  }

  lemma StillNext(k: Keys, d: Disk, actions: seq<Action>, i: nat)
    requires Usable(k, d) && i < |actions|
    ensures StillAt(k, d, actions, i, i + 1) <==> InformedAt(k, d, actions, i)
  {
    hide Sound, Step, LandsInformed, StillAnnounced;
    RunKeeps(k, d, actions[..i]);
    assert actions[..i + 1][..i] == actions[..i];
    StepStillIff(k, Run(k, d, actions[..i]), actions[i]);
  }

  lemma {:induction false} StillAll(k: Keys, d: Disk, actions: seq<Action>, i: nat, j: nat)
    requires Usable(k, d) && i <= j <= |actions|
    requires forall p :: 0 <= p < |actions| ==> InformedAt(k, d, actions, p)
    ensures StillAt(k, d, actions, i, j)
    decreases j
  {
    hide InformedAt, Run, StillAnnounced;
    if i == j {
      StillItself(Run(k, d, actions[..i]).disk.state);
    } else {
      StillAll(k, d, actions, i, j - 1);
      StillNext(k, d, actions, j - 1);
      StillFurther(Run(k, d, actions[..i]).disk.state, Run(k, d, actions[..j - 1]).disk.state,
                   Run(k, d, actions[..j]).disk.state);
    }
  }

  lemma StillItself(x: Option<IdentityState>)
    ensures StillAnnounced(x, x)
  {
  }

  /** Over any such mix the receiver of every announcement that was ever on disk stays on disk, if
      and only if no snapshot lands that misses an announcement the disk has. */
  lemma AnnouncedStayIff(k: Keys, d: Disk, actions: seq<Action>)
    requires Usable(k, d)
    ensures (forall i, j :: 0 <= i <= j <= |actions| ==> StillAt(k, d, actions, i, j))
            <==> (forall i :: 0 <= i < |actions| ==> InformedAt(k, d, actions, i))
  {
    hide InformedAt, StillAt;
    if forall i :: 0 <= i < |actions| ==> InformedAt(k, d, actions, i) {
      forall i, j | 0 <= i <= j <= |actions| ensures StillAt(k, d, actions, i, j) { StillAll(k, d, actions, i, j); }
    }
    if forall i, j :: 0 <= i <= j <= |actions| ==> StillAt(k, d, actions, i, j) {
      forall i | 0 <= i < |actions| ensures InformedAt(k, d, actions, i) {
        assert StillAt(k, d, actions, i, i + 1);
        StillNext(k, d, actions, i);
      }
    }
  }

  // ----- saves that land in order

  predicate InOrder(actions: seq<Action>) {
    forall i :: 0 <= i < |actions| && actions[i].Land? ==> actions[i].save == 0
  }

  // The file is no newer than any snapshot, and each snapshot no newer than the next.
  ghost predicate Lined(l: Life) {
    && (forall i :: 0 <= i < |l.saves| ==> l.disk.state.Some? && Leads(l.disk.state.value, l.saves[i]))
    && (forall i, j :: 0 <= i < j < |l.saves| ==> Leads(l.saves[i], l.saves[j]))
  }

  lemma StepLined(k: Keys, l: Life, a: Action)
    requires Sound(k, l) && Lined(l) && (a.Land? ==> a.save == 0)
    ensures Lined(Step(k, l, a))
  {
    hide ReceiversOk, Leads, Perform, StartUp, DiskAfter;
    if a.Save? && l.mem.Some? {
      forall i | 0 <= i < |l.saves| ensures Leads(l.saves[i], l.mem.value) { assert Came(k, l.saves[i], l.mem.value); }
    }
  }

  lemma {:induction false} RunLined(k: Keys, d: Disk, actions: seq<Action>)
    requires Usable(k, d) && InOrder(actions)
    ensures Lined(Run(k, d, actions))
  {
    hide Sound, Step, Lined;
    if actions == [] {
      StartsLined(d);
    } else {
      var before := actions[..|actions| - 1];
      RunKeeps(k, d, before);
      RunLined(k, d, before);
      StepLined(k, Run(k, d, before), actions[|actions| - 1]);
    }
  }

  lemma StartsLined(d: Disk)
    ensures Lined(Life(d, None, []))
  {
  }

  lemma LinedInforms(l: Life)
    requires Lined(l) && l.saves != []
    ensures LandsInformed(l, Land(0))
  {
  }

  /** When saves land in the order they began, an announced receiver on disk survives everything. */
  lemma AnnouncedStayInOrder(k: Keys, d: Disk, actions: seq<Action>, i: nat, j: nat)
    requires Usable(k, d) && InOrder(actions) && i <= j <= |actions|
    ensures StillAt(k, d, actions, i, j)
  {
    hide Run, Lined, StillAt;
    forall p | 0 <= p < |actions| ensures InformedAt(k, d, actions, p) {
      RunLined(k, d, actions[..p]);
      var l := Run(k, d, actions[..p]);
      if actions[p].Land? && l.saves != [] { LinedInforms(l); }
    }
    StillAll(k, d, actions, i, j);
  }

  // ----- a save that is overtaken

  lemma RunSnoc(k: Keys, d: Disk, actions: seq<Action>, a: Action)
    ensures Run(k, d, actions + [a]) == Step(k, Run(k, d, actions), a)
  {
    assert (actions + [a])[..|actions + [a]| - 1] == actions;
  }

  /** A receiver is bound and its announcement recorded; the two saves land in the other order, and
      the announcement that was on disk is gone from it. */
  lemma OvertakenSave(k: Keys, minted: Seed, code: string, txid: string) returns (actions: seq<Action>)
    requires Trim(code) != "" && txid != "" && k.notify(Trim(code), "bitcoin").Some?
    requires Trim(code) != k.derive(minted, "bitcoin").paymentCode
    ensures var (l, m) := (Run(k, Disk(None, None), actions), Run(k, Disk(None, None), actions + [Land(0)]));
      && l.disk.state.Some? && Announced(l.disk.state.value, "bitcoin")
      && l.disk.state.value.networks["bitcoin"].receiver == Trim(code)
      && m.disk.state.Some? && !Announced(m.disk.state.value, "bitcoin")
  {
    hide Perform, StartUp, DiskAfter, Announced;
    var d := Disk(None, None);
    var (bind, announce) := (Bind("bitcoin", code), Act.Announced("bitcoin", txid, ""));
    var s0 := FirstState(k.derive, minted);
    FirstStart(k, minted);
    BoundThenAnnounced(k, minted, code, txid);
    RunSnoc(k, d, [], Boot(minted, 2));
    actions := [Boot(minted, 2)];
    assert [] + actions == actions;
    RunSnoc(k, d, actions, Do(bind));
    actions := actions + [Do(bind)];
    RunSnoc(k, d, actions, Save);
    actions := actions + [Save];
    RunSnoc(k, d, actions, Do(announce));
    actions := actions + [Do(announce)];
    RunSnoc(k, d, actions, Save);
    actions := actions + [Save];
    RunSnoc(k, d, actions, Land(1));
    actions := actions + [Land(1)];
    RunSnoc(k, d, actions, Land(0));
  }

  lemma FirstStart(k: Keys, minted: Seed)
    ensures var s := FirstState(k.derive, minted);
      Step(k, Life(Disk(None, None), None, []), Boot(minted, 2)) == Life(Disk(Some(minted), Some(s)), Some(s), [])
  {
    hide FirstState;
  }

  lemma BoundThenAnnounced(k: Keys, minted: Seed, code: string, txid: string)
    requires Trim(code) != "" && txid != "" && k.notify(Trim(code), "bitcoin").Some?
    requires Trim(code) != k.derive(minted, "bitcoin").paymentCode
    ensures var s := Perform(k.notify, FirstState(k.derive, minted), Bind("bitcoin", code));
      var t := Perform(k.notify, s, Act.Announced("bitcoin", txid, ""));
      !Announced(s, "bitcoin") && Announced(t, "bitcoin") && t.networks["bitcoin"].receiver == Trim(code)
  {
    hide Trim;
    assert NETWORKS[0] == "bitcoin" && "bitcoin" in NETWORKS;
  }
}
