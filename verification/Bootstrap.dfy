/** gateway/bootstrap.ts: the shop's identity on every network it trades on.

    Key derivation is a parameter: `derive` gives the identity a seed yields on a network, and
    `notify` the notification address a payment code yields there, or None when it does not
    parse. An optional string of the source is empty here when it is absent. */
module Bootstrap {
  import opened Prelude

  type Network = string

  const NETWORKS: seq<Network> := ["bitcoin", "testnet4"]

  datatype Seed = Seed(mnemonic: string, passphrase: string, createdAt: string)

  datatype Derived = Derived(paymentCode: string, notificationAddress: string, depositAddress: string)

  datatype Dojo = Dojo(url: string, apikey: string, title: Option<string>, own: bool)

  datatype Block = Block(
    paymentCode: string, notificationAddress: string, depositAddress: string,
    receiver: string, receiverNotification: string,
    nymName: string, nymId: string, notificationTxid: string, notificationSentAt: string,
    dojo: Option<Dojo>)

  datatype IdentityState = IdentityState(active: Network, createdAt: string, networks: map<Network, Block>)

  type Derive = (Seed, Network) -> Derived
  type Notify = (string, Network) -> Option<string>

  // ----- the three operator actions

  datatype Refusal = UnknownNetwork | NotAPaymentCode | OwnPaymentCode | AlreadyAnnounced

  function BindReceiver(notify: Notify, s: IdentityState, network: Network, personal: string)
    : Result<IdentityState, Refusal>
  {
    if network !in s.networks then Err(UnknownNetwork)
    else
      var block := s.networks[network];
      var code := Trim(personal);
      match notify(code, network)
      case None => Err(NotAPaymentCode)
      case Some(address) =>
        if code == block.paymentCode then Err(OwnPaymentCode)
        else if block.notificationTxid != "" && block.receiver != "" && block.receiver != code then
          Err(AlreadyAnnounced)
        else
          Ok(s.(networks := s.networks[network := block.(receiver := code, receiverNotification := address)]))
  }

  function SetDojo(s: IdentityState, network: Network, dojo: Option<Dojo>): Result<IdentityState, Refusal> {
    if network !in s.networks then Err(UnknownNetwork)
    else Ok(s.(networks := s.networks[network := s.networks[network].(dojo := dojo)]))
  }

  function SetActive(s: IdentityState, network: Network): Result<IdentityState, Refusal> {
    if network !in s.networks then Err(UnknownNetwork) else Ok(s.(active := network))
  }

  // Announced is the environment: the notification transaction was sent and recorded.
  datatype Act =
    | Bind(network: Network, personal: string)
    | ChooseDojo(network: Network, dojo: Option<Dojo>)
    | Activate(network: Network)
    | Announced(network: Network, txid: string, at: string)

  // A refused action throws before anything is replaced.
  function Perform(notify: Notify, s: IdentityState, a: Act): IdentityState {
    match a
    case Bind(n, personal) => Kept(s, BindReceiver(notify, s, n, personal))
    case ChooseDojo(n, dojo) => Kept(s, SetDojo(s, n, dojo))
    case Activate(n) => Kept(s, SetActive(s, n))
    case Announced(n, txid, at) =>
      if n !in s.networks || txid == "" then s
      else s.(networks := s.networks[n := s.networks[n].(notificationTxid := txid, notificationSentAt := at)])
  }

  function Kept(s: IdentityState, r: Result<IdentityState, Refusal>): IdentityState {
    match r
    case Ok(t) => t
    case Err(_) => s
  }

  function PerformAll(notify: Notify, s: IdentityState, acts: seq<Act>): IdentityState {
    if acts == [] then s else Perform(notify, PerformAll(notify, s, acts[..|acts| - 1]), acts[|acts| - 1])
  }

  /** When a receiver is refused: the network is unknown, the code does not parse there, it is the
      shop's own, or another one has been announced. Otherwise the block has the trimmed code and
      the address it derives, and nothing else of the state changes. */
  lemma BindIff(notify: Notify, s: IdentityState, n: Network, personal: string)
    ensures var (r, code) := (BindReceiver(notify, s, n, personal), Trim(personal));
      && (r == Err(UnknownNetwork) <==> n !in s.networks)
      && (r == Err(NotAPaymentCode) <==> n in s.networks && notify(code, n).None?)
      && (r == Err(OwnPaymentCode) <==> n in s.networks && notify(code, n).Some? && code == s.networks[n].paymentCode)
      && (r == Err(AlreadyAnnounced) <==>
            && n in s.networks && notify(code, n).Some? && code != s.networks[n].paymentCode
            && s.networks[n].notificationTxid != "" && s.networks[n].receiver !in {"", code})
      && (r.Ok? ==>
            && n in s.networks && r.value.networks.Keys == s.networks.Keys
            && r.value.active == s.active && r.value.createdAt == s.createdAt
            && (forall m :: m in s.networks && m != n ==> r.value.networks[m] == s.networks[m])
            && var (was, now) := (s.networks[n], r.value.networks[n]);
               && now.receiver == code && notify(code, n) == Some(now.receiverNotification)
               && now == was.(receiver := now.receiver, receiverNotification := now.receiverNotification))
  {
    hide Trim;
  }

  // What the other actions do to a state: one field of one block, or the network traded on.
  lemma ActsChange(notify: Notify, s: IdentityState, n: Network, dojo: Option<Dojo>, txid: string, at: string)
    ensures Perform(notify, s, Activate(n))
         == IdentityState(if n in s.networks then n else s.active, s.createdAt, s.networks)
    ensures var t := Perform(notify, s, ChooseDojo(n, dojo));
      && t.active == s.active && t.createdAt == s.createdAt && t.networks.Keys == s.networks.Keys
      && forall m :: m in s.networks ==>
           t.networks[m] == if m == n then s.networks[m].(dojo := dojo) else s.networks[m]
    ensures var t := Perform(notify, s, Announced(n, txid, at));
      && t.active == s.active && t.createdAt == s.createdAt && t.networks.Keys == s.networks.Keys
      && forall m :: m in s.networks ==>
           t.networks[m] == if m == n && txid != ""
                            then s.networks[m].(notificationTxid := txid, notificationSentAt := at) else s.networks[m]
  {
  }

  // The code that the last accepted binding on network n left, or what the state began with.
  function BoundBy(notify: Notify, s: IdentityState, acts: seq<Act>, n: Network): string {
    if acts == [] then (if n in s.networks then s.networks[n].receiver else "")
    else
      var (before, a) := (acts[..|acts| - 1], acts[|acts| - 1]);
      if a.Bind? && a.network == n && BindReceiver(notify, PerformAll(notify, s, before), n, a.personal).Ok?
      then Trim(a.personal) else BoundBy(notify, s, before, n)
  }

  // No other action touches a receiver.
  lemma {:induction false} BoundIs(notify: Notify, s: IdentityState, acts: seq<Act>, n: Network)
    ensures var t := PerformAll(notify, s, acts);
      BoundBy(notify, s, acts, n) == if n in t.networks then t.networks[n].receiver else ""
  {
    hide Trim;
    if acts != [] { BoundIs(notify, s, acts[..|acts| - 1], n); }
  }

  // A bound receiver is somebody else's code, and the address shown for it is the one it derives here.
  ghost predicate ReceiverOk(notify: Notify, n: Network, b: Block) {
    b.receiver != "" ==> b.receiver != b.paymentCode && notify(b.receiver, n) == Some(b.receiverNotification)
  }

  ghost predicate ReceiversOk(notify: Notify, s: IdentityState) {
    && s.active in s.networks
    && forall n :: n in s.networks ==> ReceiverOk(notify, n, s.networks[n])
  }

  predicate Frozen(b: Block) {
    b.notificationTxid != "" && b.receiver != ""
  }

  // What no action may do to a block.
  ghost predicate Follows(was: Block, now: Block) {
    && now.paymentCode == was.paymentCode
    && now.notificationAddress == was.notificationAddress
    && now.depositAddress == was.depositAddress
    && (Frozen(was) ==> Frozen(now) && now.receiver == was.receiver
                        && now.receiverNotification == was.receiverNotification)
  }

  // One block replaced by one that follows it.
  lemma OneBlockFollows(notify: Notify, s: IdentityState, n: Network, b: Block)
    requires ReceiversOk(notify, s) && n in s.networks
    requires Follows(s.networks[n], b) && ReceiverOk(notify, n, b)
    ensures var t := s.(networks := s.networks[n := b]);
            && ReceiversOk(notify, t) && t.networks.Keys == s.networks.Keys
            && forall m :: m in s.networks ==> Follows(s.networks[m], t.networks[m])
  {
    hide ReceiverOk;
  }

  lemma BindFollows(notify: Notify, s: IdentityState, n: Network, personal: string)
    requires ReceiversOk(notify, s) && BindReceiver(notify, s, n, personal).Ok?
    ensures var t := BindReceiver(notify, s, n, personal).value;
            && ReceiversOk(notify, t) && t.networks.Keys == s.networks.Keys
            && forall m :: m in s.networks ==> Follows(s.networks[m], t.networks[m])
  {
    assert ReceiverOk(notify, n, s.networks[n]);
    hide ReceiversOk, Trim;
    OneBlockFollows(notify, s, n, BindReceiver(notify, s, n, personal).value.networks[n]);
  }

  lemma StepFollows(notify: Notify, s: IdentityState, a: Act)
    requires ReceiversOk(notify, s)
    ensures var t := Perform(notify, s, a);
            && ReceiversOk(notify, t) && t.networks.Keys == s.networks.Keys
            && forall n :: n in s.networks ==> Follows(s.networks[n], t.networks[n])
  {
    hide BindReceiver;
    match a
    case Bind(n, personal) =>
      if BindReceiver(notify, s, n, personal).Ok? { BindFollows(notify, s, n, personal); }
    case ChooseDojo(n, dojo) =>
      if n in s.networks { OneBlockFollows(notify, s, n, s.networks[n].(dojo := dojo)); }
    case Activate(_) =>
    case Announced(n, txid, at) =>
      if n in s.networks && txid != "" {
        OneBlockFollows(notify, s, n, s.networks[n].(notificationTxid := txid, notificationSentAt := at));
      }
  }

  /** Over every run of the operator's actions and of announcements on-chain: each bound receiver
      is a foreign code with its own notification address beside it, the trading network exists,
      the shop's own addresses never move, and a receiver whose notification is on-chain stays. */
  lemma {:induction false} ReceiverNeverMovesOnceAnnounced(notify: Notify, s: IdentityState, acts: seq<Act>)
    requires ReceiversOk(notify, s)
    ensures var t := PerformAll(notify, s, acts);
            && ReceiversOk(notify, t) && t.networks.Keys == s.networks.Keys
            && forall n :: n in s.networks ==> Follows(s.networks[n], t.networks[n])
  {
    if acts != [] {
      ReceiverNeverMovesOnceAnnounced(notify, s, acts[..|acts| - 1]);
      StepFollows(notify, PerformAll(notify, s, acts[..|acts| - 1]), acts[|acts| - 1]);
    }
  }

  /** Actions that name other networks leave a network's block exactly as it was. */
  lemma {:induction false} OtherNetworksUntouched(notify: Notify, s: IdentityState, acts: seq<Act>, n: Network)
    requires n in s.networks
    requires forall k :: 0 <= k < |acts| ==> acts[k].Activate? || acts[k].network != n
    ensures var t := PerformAll(notify, s, acts); n in t.networks && t.networks[n] == s.networks[n]
  {
    if acts != [] {
      OtherNetworksUntouched(notify, s, acts[..|acts| - 1], n);
      assert acts[|acts| - 1].Activate? || acts[|acts| - 1].network != n;
    }
  }

  /** An announcement recorded while nothing is bound freezes nothing: the receiver bound next is
      the one that stays. */
  lemma FreezesWhatIsBoundNext(notify: Notify, s: IdentityState, n: Network, personal: string, acts: seq<Act>)
    requires ReceiversOk(notify, s) && n in s.networks
    requires s.networks[n].notificationTxid != "" && s.networks[n].receiver == ""
    requires BindReceiver(notify, s, n, personal).Ok? && Trim(personal) != ""
    ensures var t := PerformAll(notify, Perform(notify, s, Bind(n, personal)), acts);
            n in t.networks && t.networks[n].receiver == Trim(personal)
  {
    StepFollows(notify, s, Bind(n, personal));
    ReceiverNeverMovesOnceAnnounced(notify, Perform(notify, s, Bind(n, personal)), acts);
  }

  // ----- first run and every later start

  function BlankBlock(d: Derived): Block {
    Block(d.paymentCode, d.notificationAddress, d.depositAddress, "", "", "", "", "", "", None)
  }

  function FirstState(derive: Derive, seed: Seed): IdentityState {
    IdentityState("bitcoin", seed.createdAt, map n | n in NETWORKS :: BlankBlock(derive(seed, n)))
  }

  predicate Disagrees(derive: Derive, seed: Seed, s: IdentityState, n: Network) {
    n in s.networks && s.networks[n].paymentCode != "" && s.networks[n].paymentCode != derive(seed, n).paymentCode
  }

  function Backfilled(derive: Derive, seed: Seed, s: IdentityState, n: Network): Block {
    if n !in s.networks then BlankBlock(derive(seed, n))
    else if n in NETWORKS && s.networks[n].depositAddress == "" then
      s.networks[n].(depositAddress := derive(seed, n).depositAddress)
    else s.networks[n]
  }

  function Grown(derive: Derive, seed: Seed, s: IdentityState): IdentityState {
    s.(networks := map n | n in s.networks.Keys + (set m | m in NETWORKS) :: Backfilled(derive, seed, s, n))
  }

  // The two files, either of which may be missing.
  datatype Disk = Disk(seed: Option<Seed>, state: Option<IdentityState>)

  datatype Start = Start(
    seedWritten: bool,             // the first write, when there was no seed
    stateWrite: Option<IdentityState>,   // the second, when the state is new or grew
    outcome: Result<IdentityState, Network>)

  // What a start does: the writes it makes, in order, and what it returns or which network it refuses over.
  function StartUp(derive: Derive, d: Disk, minted: Seed): Start {
    var seed := if d.seed.Some? then d.seed.value else minted;
    match d.state
    case None =>
      var s := FirstState(derive, seed);
      Start(d.seed.None?, Some(s), Ok(s))
    case Some(s) =>
      if Disagrees(derive, seed, s, NETWORKS[0]) then Start(d.seed.None?, None, Err(NETWORKS[0]))
      else if Disagrees(derive, seed, s, NETWORKS[1]) then Start(d.seed.None?, None, Err(NETWORKS[1]))
      else
        var t := Grown(derive, seed, s);
        Start(d.seed.None?, if t == s then None else Some(t), Ok(t))
  }

  // The disk when the process dies after the first `writes` of them (2 is a complete start).
  function DiskAfter(derive: Derive, d: Disk, minted: Seed, writes: nat): Disk {
    var st := StartUp(derive, d, minted);
    var d1 := if st.seedWritten && writes >= 1 then d.(seed := Some(minted)) else d;
    if st.stateWrite.Some? && writes >= 2 then d1.(state := st.stateWrite) else d1
  }

  // The first network, in order, whose recorded code is not the one the seed derives.
  method FirstDisagreement(derive: Derive, seed: Seed, s: IdentityState) returns (r: Option<Network>)
    ensures r == if Disagrees(derive, seed, s, NETWORKS[0]) then Some(NETWORKS[0])
                 else if Disagrees(derive, seed, s, NETWORKS[1]) then Some(NETWORKS[1])
                 else None
  {
    for k := 0 to |NETWORKS|
      invariant forall j :: 0 <= j < k ==> !Disagrees(derive, seed, s, NETWORKS[j])
    {
      if Disagrees(derive, seed, s, NETWORKS[k]) { return Some(NETWORKS[k]); }
    }
    return None;
  }

  ghost predicate BackfilledUpTo(derive: Derive, seed: Seed, s: IdentityState, t: map<Network, Block>, k: nat)
    requires k <= |NETWORKS|
  {
    && (forall n :: n in t <==> n in s.networks || n in NETWORKS[..k])
    && (forall n :: n in t ==>
          t[n] == if n in NETWORKS[..k] then Backfilled(derive, seed, s, n) else s.networks[n])
  }

  lemma BackfillNext(derive: Derive, seed: Seed, s: IdentityState, t: map<Network, Block>, k: nat)
    requires k < |NETWORKS| && BackfilledUpTo(derive, seed, s, t, k)
    ensures BackfilledUpTo(derive, seed, s, t[NETWORKS[k] := Backfilled(derive, seed, s, NETWORKS[k])], k + 1)
    ensures NETWORKS[k] !in NETWORKS[..k]
  {
    assert NETWORKS[..k + 1] == NETWORKS[..k] + [NETWORKS[k]];
  }

  method Backfill(derive: Derive, seed: Seed, s: IdentityState) returns (t: IdentityState, grew: bool)
    ensures t == Grown(derive, seed, s)
    ensures !grew ==> t == s
  {
    t, grew := s, false;
    for k := 0 to |NETWORKS|
      invariant t == s.(networks := t.networks)
      invariant BackfilledUpTo(derive, seed, s, t.networks, k)
      invariant !grew ==> t == s
    {
      var n := NETWORKS[k];
      BackfillNext(derive, seed, s, t.networks, k);
      if n !in t.networks {
        t := t.(networks := t.networks[n := BlankBlock(derive(seed, n))]);
        grew := true;
      } else if t.networks[n].depositAddress == "" {
        t := t.(networks := t.networks[n := t.networks[n].(depositAddress := derive(seed, n).depositAddress)]);
        grew := true;
      } else {
        assert t.networks[n := t.networks[n]] == t.networks;
      }
    }
    assert NETWORKS[..|NETWORKS|] == NETWORKS;
    assert t.networks == Grown(derive, seed, s).networks;
  }

  class DataDir {
    var seed: Option<Seed>
    var state: Option<IdentityState>

    function Files(): Disk
      reads this
    {
      Disk(seed, state)
    }

    method LoadOrCreate(derive: Derive, minted: Seed) returns (r: Result<IdentityState, Network>, created: bool)
      modifies this
      ensures r == StartUp(derive, old(Files()), minted).outcome
      ensures created == old(seed).None?
      ensures Files() == DiskAfter(derive, old(Files()), minted, 2)
    {
      created := false;
      if seed.None? {
        seed := Some(minted);
        created := true;
      }
      if state.None? {
        state := Some(FirstState(derive, seed.value));
        return Ok(state.value), created;
      }
      var wrong := FirstDisagreement(derive, seed.value, state.value);
      if wrong.Some? { return Err(wrong.value), created; }
      var s, grew := Backfill(derive, seed.value, state.value);
      if grew { state := Some(s); }
      return Ok(s), created;
    }
  }

  lemma GrownAgain(derive: Derive, seed: Seed, s: IdentityState)
    ensures Grown(derive, seed, Grown(derive, seed, s)) == Grown(derive, seed, s)
  {
    var t := Grown(derive, seed, s);
    forall n | n in t.networks ensures Backfilled(derive, seed, t, n) == t.networks[n] {
      assert t.networks[n] == Backfilled(derive, seed, s, n);
    }
    assert Grown(derive, seed, t).networks.Keys == t.networks.Keys;
    assert Grown(derive, seed, t).networks == t.networks;
  }

  /** After a start that succeeded, the next one writes nothing and returns the same identity. */
  lemma SecondStartChangesNothing(derive: Derive, d: Disk, minted: Seed, other: Seed)
    requires StartUp(derive, d, minted).outcome.Ok?
    ensures var again := StartUp(derive, DiskAfter(derive, d, minted, 2), other);
            && !again.seedWritten && again.stateWrite == None
            && again.outcome == StartUp(derive, d, minted).outcome
  {
    var seed := if d.seed.Some? then d.seed.value else minted;
    if d.state.Some? {
      GrownAgain(derive, seed, d.state.value);
      GrownAgrees(derive, seed, d.state.value);
    } else {
      FirstIsGrown(derive, seed);
    }
    hide Grown, FirstState, Disagrees;
  }

  lemma GrownAgrees(derive: Derive, seed: Seed, s: IdentityState)
    requires forall n :: n in NETWORKS ==> !Disagrees(derive, seed, s, n)
    ensures forall n :: n in NETWORKS ==> !Disagrees(derive, seed, Grown(derive, seed, s), n)
  {
  }

  lemma FirstIsGrown(derive: Derive, seed: Seed)
    ensures Grown(derive, seed, FirstState(derive, seed)) == FirstState(derive, seed)
    ensures forall n :: n in NETWORKS ==> !Disagrees(derive, seed, FirstState(derive, seed), n)
  {
    var s := FirstState(derive, seed);
    assert Grown(derive, seed, s).networks.Keys == s.networks.Keys;
    assert Grown(derive, seed, s).networks == s.networks;
  }

  /** Once a start has a seed on disk, found or written, its death at any point is made good by the
      next one: the same files as if it had not died, and the same outcome, whatever the next one
      would have generated. */
  lemma CrashIsHealed(derive: Derive, d: Disk, minted: Seed, writes: nat, other: Seed)
    requires d.seed.Some? || writes >= 1
    ensures DiskAfter(derive, DiskAfter(derive, d, minted, writes), other, 2) == DiskAfter(derive, d, minted, 2)
    ensures StartUp(derive, DiskAfter(derive, d, minted, writes), other).outcome == StartUp(derive, d, minted).outcome
  {
    if StartUp(derive, d, minted).outcome.Ok? && writes >= 2 {
      SecondStartChangesNothing(derive, d, minted, other);
    }
    hide Grown, FirstState, Disagrees;
  }

  // A start with the seed it would generate and the write it dies after; 2 is one that returns.
  datatype Attempt = Attempt(minted: Seed, writes: nat)

  function DiskAfterAll(derive: Derive, d: Disk, starts: seq<Attempt>): Disk {
    if starts == [] then d
    else
      var last := starts[|starts| - 1];
      DiskAfter(derive, DiskAfterAll(derive, d, starts[..|starts| - 1]), last.minted, last.writes)
  }

  // What the i-th start returns if it lives to.
  function OutcomeOf(derive: Derive, d: Disk, starts: seq<Attempt>, i: nat): Result<IdentityState, Network>
    requires i < |starts|
  {
    StartUp(derive, DiskAfterAll(derive, d, starts[..i]), starts[i].minted).outcome
  }

  lemma DiskAfterNext(derive: Derive, d: Disk, starts: seq<Attempt>, i: nat)
    requires i < |starts|
    ensures DiskAfterAll(derive, d, starts[..i + 1])
         == DiskAfter(derive, DiskAfterAll(derive, d, starts[..i]), starts[i].minted, starts[i].writes)
  {
    assert starts[..i + 1][..i] == starts[..i];
  }

  /** Over every sequence of starts, wherever each dies, the first seed on disk is there for good. */
  lemma {:induction false} SeedIsNeverReplaced(derive: Derive, d: Disk, starts: seq<Attempt>, i: nat)
    requires i <= |starts| && DiskAfterAll(derive, d, starts[..i]).seed.Some?
    ensures DiskAfterAll(derive, d, starts).seed == DiskAfterAll(derive, d, starts[..i]).seed
  {
    hide StartUp;
    var n := |starts| - 1;
    if i <= n {
      assert starts[..n][..i] == starts[..i];
      SeedIsNeverReplaced(derive, d, starts[..n], i);
      SeedStays(derive, DiskAfterAll(derive, d, starts[..n]), starts[n]);
    } else {
      assert starts[..i] == starts;
    }
  }

  lemma SeedStays(derive: Derive, d: Disk, a: Attempt)
    requires d.seed.Some?
    ensures DiskAfter(derive, d, a.minted, a.writes).seed == d.seed
  {
    hide Grown, FirstState, Disagrees;
  }

  /** And every start from the one that put it there, or found it, has the same outcome: all that
      return give the same identity, or all refuse over the same network. */
  lemma {:induction false} EveryStartReturnsTheSame(derive: Derive, d: Disk, starts: seq<Attempt>, i: nat, j: nat)
    requires i <= j < |starts|
    requires DiskAfterAll(derive, d, starts[..i]).seed.Some? || starts[i].writes >= 1
    ensures OutcomeOf(derive, d, starts, j) == OutcomeOf(derive, d, starts, i)
  {
    hide StartUp, DiskAfter;
    if i < j {
      var k := j - 1;
      EveryStartReturnsTheSame(derive, d, starts, i, k);
      var before := DiskAfterAll(derive, d, starts[..k]);
      if i < k { SeedThere(derive, d, starts, i, k); }
      DiskAfterNext(derive, d, starts, k);
      CrashIsHealed(derive, before, starts[k].minted, starts[k].writes, starts[j].minted);
    }
  }

  lemma SeedThere(derive: Derive, d: Disk, starts: seq<Attempt>, i: nat, k: nat)
    requires i < k < |starts|
    requires DiskAfterAll(derive, d, starts[..i]).seed.Some? || starts[i].writes >= 1
    ensures DiskAfterAll(derive, d, starts[..k]).seed.Some?
  {
    hide Grown, FirstState, Disagrees;
    DiskAfterNext(derive, d, starts, i);
    assert starts[..k][..i + 1] == starts[..i + 1];
    SeedIsNeverReplaced(derive, d, starts[..k], i + 1);
  }

  // The seed a start goes by, and the block a network had before it.
  function SeedOf(d: Disk, minted: Seed): Seed {
    if d.seed.Some? then d.seed.value else minted
  }

  function BlockOf(d: Disk, n: Network): Option<Block> {
    if d.state.Some? && n in d.state.value.networks then Some(d.state.value.networks[n]) else None
  }

  /** A start refuses exactly when one of its networks has a recorded code that the seed does not
      derive, and over the first that has. */
  lemma StartRefusesIff(derive: Derive, d: Disk, minted: Seed)
    ensures var (r, seed) := (StartUp(derive, d, minted).outcome, SeedOf(d, minted));
      && (r.Err? <==> exists n :: n in ["bitcoin", "testnet4"] && ForeignCode(derive, seed, BlockOf(d, n), n))
      && (r == Err("bitcoin") <==> ForeignCode(derive, seed, BlockOf(d, "bitcoin"), "bitcoin"))
  {
    assert "bitcoin" in ["bitcoin", "testnet4"] && "testnet4" in ["bitcoin", "testnet4"];
  }

  predicate ForeignCode(derive: Derive, seed: Seed, b: Option<Block>, n: Network) {
    b.Some? && b.value.paymentCode != "" && b.value.paymentCode != derive(seed, n).paymentCode
  }

  /** Field by field, what a start that succeeds returns and leaves on disk: a network that had no
      block has the three identities the seed derives there and nothing bound, announced or chosen;
      a block that was there may gain the derived deposit address. */
  lemma StartGives(derive: Derive, d: Disk, minted: Seed, n: Network)
    requires StartUp(derive, d, minted).outcome.Ok?
    ensures var (t, seed) := (StartUp(derive, d, minted).outcome.value, SeedOf(d, minted));
      && DiskAfter(derive, d, minted, 2) == Disk(Some(seed), Some(t))
      && (d.state.None? ==> t.active == "bitcoin" && t.createdAt == seed.createdAt)
      && (d.state.Some? ==> t.active == d.state.value.active && t.createdAt == d.state.value.createdAt)
      && (n in t.networks <==> n in ["bitcoin", "testnet4"] || BlockOf(d, n).Some?)
      && (n in t.networks && BlockOf(d, n).None? ==>
            var (b, i) := (t.networks[n], derive(seed, n));
            && b.paymentCode == i.paymentCode && b.notificationAddress == i.notificationAddress
            && b.depositAddress == i.depositAddress
            && b.receiver == "" && b.receiverNotification == "" && b.nymName == "" && b.nymId == ""
            && b.notificationTxid == "" && b.notificationSentAt == "" && b.dojo == None)
      && (BlockOf(d, n).Some? && (n !in ["bitcoin", "testnet4"] || BlockOf(d, n).value.depositAddress != "") ==>
            t.networks[n] == BlockOf(d, n).value)
      && (BlockOf(d, n).Some? && n in ["bitcoin", "testnet4"] && BlockOf(d, n).value.depositAddress == "" ==>
            t.networks[n] == BlockOf(d, n).value.(depositAddress := derive(seed, n).depositAddress))
  {
    if d.state.Some? {
      var s := d.state.value;
      GrownAt(derive, SeedOf(d, minted), s, n);
    }
    hide Grown, Disagrees;
  }

  lemma GrownAt(derive: Derive, seed: Seed, s: IdentityState, n: Network)
    ensures var t := Grown(derive, seed, s);
      && t.active == s.active && t.createdAt == s.createdAt
      && (n in t.networks <==> n in s.networks || n in ["bitcoin", "testnet4"])
      && (n in t.networks ==> t.networks[n] == Backfilled(derive, seed, s, n))
  {
  }

  predicate OnlyAddsDeposit(was: Block, now: Block, d: Derived) {
    || now == was
    || (was.depositAddress == "" && now == was.(depositAddress := d.depositAddress))
  }

  /** With a seed on disk a start either refuses and writes nothing, or returns a state in which
      no recorded code disagrees with the seed, every network has a block, and every block that
      existed differs at most by a deposit address it did not have. */
  lemma RefusesOrOnlyAdds(derive: Derive, d: Disk, minted: Seed, s: IdentityState)
    requires d.seed.Some? && d.state == Some(s)
    ensures var st := StartUp(derive, d, minted);
            match st.outcome
            case Err(n) => n in NETWORKS && Disagrees(derive, d.seed.value, s, n)
                           && !st.seedWritten && st.stateWrite == None
            case Ok(t) =>
              && t.active == s.active && t.createdAt == s.createdAt
              && (forall n :: n in NETWORKS ==> n in t.networks && !Disagrees(derive, d.seed.value, t, n))
              && (forall n :: n in s.networks ==>
                    n in t.networks && OnlyAddsDeposit(s.networks[n], t.networks[n], derive(d.seed.value, n)))
  {
  }

  /** So the state a start returns meets what the runs above assume, whenever the stored one did. */
  lemma StartMeetsReceiversOk(derive: Derive, notify: Notify, d: Disk, minted: Seed)
    requires d.state.Some? ==> ReceiversOk(notify, d.state.value)
    ensures var r := StartUp(derive, d, minted).outcome; r.Ok? ==> ReceiversOk(notify, r.value)
  {
    assert NETWORKS[0] in NETWORKS;
  }

  /** Refusing is not always free of effects: when the seed file is gone and the recorded codes
      are not the ones the replacement derives, the replacement is on disk before the refusal,
      and stays there. A refusal leaves the files as they were exactly when the seed existed. */
  lemma RefusalWritesIffSeedWasMissing(derive: Derive, d: Disk, minted: Seed)
    requires StartUp(derive, d, minted).outcome.Err?
    ensures DiskAfter(derive, d, minted, 2) == d <==> d.seed.Some?
    ensures d.seed.None? ==> DiskAfter(derive, d, minted, 2).seed == Some(minted)
  {
  }

  // Such a disk: a state that records a code no seed file is there for.
  lemma RefusedWithoutSeed(derive: Derive, minted: Seed, code: string)
    requires code != "" && code != derive(minted, "bitcoin").paymentCode
    ensures var s := IdentityState("bitcoin", "", map["bitcoin" := BlankBlock(Derived(code, "", ""))]);
            && StartUp(derive, Disk(None, Some(s)), minted).outcome == Err("bitcoin")
            && DiskAfter(derive, Disk(None, Some(s)), minted, 2) == Disk(Some(minted), Some(s))
  {
  }
}
