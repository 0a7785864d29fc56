/** The Auth47 login: nonces and sessions of server/store.ts:100-136 and the challenge, callback and
    poll routes of server/index.ts:207-264.

    Random nonces and session ids are parameters, new each time. A proof's challenge names its nonce
    as a host name, which holds no colon; whether the proof itself verifies is not modelled. */
module Login {
  import opened Prelude

  datatype Nonce = Nonce(expires: int, sid: Option<string>)

  datatype Session = Session(code: string, expires: int)

  type Nonces = map<string, Nonce>
  type Sessions = map<string, Session>

  const NONCE_TTL := 5 * 60 * 1000
  const SESSION_TTL := 12 * 60 * 60 * 1000

  function Claim(nonce: string): string {
    "claimed:" + nonce
  }

  // ----- the store

  datatype Tables = Tables(nonces: Nonces, sessions: Sessions)

  // What each operation of the store makes of its tables, and what it returns.
  function NoncePut(t: Tables, nonce: string, data: Nonce): Tables {
    t.(nonces := t.nonces[nonce := data])
  }

  function NonceTaken(t: Tables, nonce: string): (Tables, Option<Nonce>) {
    if nonce in t.nonces then (t.(nonces := t.nonces - {nonce}), Some(t.nonces[nonce])) else (t, None)
  }

  function NoncesCollected(t: Tables, now: int): Tables {
    t.(nonces := map k | k in t.nonces && t.nonces[k].expires >= now :: t.nonces[k])
  }

  function SessionPut(t: Tables, id: string, data: Session): Tables {
    t.(sessions := t.sessions[id := data])
  }

  // An expired session is dropped when it is asked for.
  function SessionAsked(t: Tables, id: string, now: int): (Tables, Option<Session>) {
    if id == "" || id !in t.sessions then (t, None)
    else if t.sessions[id].expires < now then (t.(sessions := t.sessions - {id}), None)
    else (t, Some(t.sessions[id]))
  }

  function SessionDropped(t: Tables, id: string): Tables {
    t.(sessions := t.sessions - {id})
  }

  class Store {
    var nonces: Nonces
    var sessions: Sessions

    function State(): Tables
      reads this
    {
      Tables(nonces, sessions)
    }

    constructor ()
      ensures State() == Tables(map[], map[])
    {
      nonces, sessions := map[], map[];
    }

    method PutNonce(nonce: string, data: Nonce)
      modifies this
      ensures State() == NoncePut(old(State()), nonce, data)
    {
      nonces := nonces[nonce := data];
    }

    method TakeNonce(nonce: string) returns (data: Option<Nonce>)
      modifies this
      ensures (State(), data) == NonceTaken(old(State()), nonce)
    {
      data := if nonce in nonces then Some(nonces[nonce]) else None;
      if data.Some? { nonces := nonces - {nonce}; }
    }

    method GcNonces(now: int)
      modifies this
      ensures State() == NoncesCollected(old(State()), now)
      ensures sessions == old(sessions) && nonces.Keys <= old(nonces).Keys
      ensures forall k :: k in old(nonces) ==> (k in nonces <==> now <= old(nonces)[k].expires)
      ensures forall k :: k in nonces ==> nonces[k] == old(nonces)[k]
    {
      var rest := nonces.Keys;
      while rest != {}
        invariant rest <= old(nonces).Keys && sessions == old(sessions)
        invariant nonces == map k | k in old(nonces) && (k in rest || old(nonces)[k].expires >= now) :: old(nonces)[k]
        decreases rest
      {
        var k :| k in rest;
        if nonces[k].expires < now { nonces := nonces - {k}; }
        rest := rest - {k};
      }
    }

    method PutSession(id: string, data: Session)
      modifies this
      ensures State() == SessionPut(old(State()), id, data)
    {
      sessions := sessions[id := data];
    }

    method GetSession(id: string, now: int) returns (data: Option<Session>)
      modifies this
      ensures (State(), data) == SessionAsked(old(State()), id, now)
      ensures data.Some? <==> id != "" && id in old(sessions) && now <= old(sessions)[id].expires
      ensures data.Some? ==> data.value == old(sessions)[id] && sessions == old(sessions)
    {
      if id == "" || id !in sessions { return None; }
      if sessions[id].expires < now {
        sessions := sessions - {id};
        return None;
      }
      data := Some(sessions[id]);
    }

    method DropSession(id: string)
      modifies this
      ensures State() == SessionDropped(old(State()), id)
    {
      if id in sessions { sessions := sessions - {id}; }
    }
  }

  // ----- the routes, one step for the code between two awaits

  // A callback under way: its nonce taken, or its session opened and not yet bound to the nonce.
  datatype Callback = Taken(nonce: string, expires: int, code: string) | Opened(nonce: string, sid: string)

  datatype Delivery = Delivery(nonce: string, sid: string)

  // The store, the callbacks under way by request, and what happened: the nonces minted, the nonce
  // each session was opened for, and the sessions handed to polls.
  datatype State = State(
    store: Tables,
    callbacks: map<nat, Callback>,
    minted: set<string>,
    openedFor: map<string, string>,
    deliveries: seq<Delivery>
  )

  datatype Event =
    | Collect(now: int)
    | Challenge(nonce: string, now: int)
    | TakeProof(request: nat, host: string, code: string)
    | OpenSession(request: nat, now: int, sid: string)
    | Bind(request: nat, now: int)
    | Poll(nonce: string)
    | AskSession(id: string, now: int)
    | DropSession(id: string)

  // New nonces and ids, and callbacks that have come so far.
  predicate Enabled(s: State, e: Event) {
    match e
    case Challenge(nonce, _) => nonce !in s.minted && ':' !in nonce
    case TakeProof(request, host, _) => request !in s.callbacks && ':' !in host
    case OpenSession(request, _, sid) => request in s.callbacks && s.callbacks[request].Taken? && sid !in s.openedFor
    case Bind(request, _) => request in s.callbacks && s.callbacks[request].Opened?
    case _ => true
  }

  function Apply(s: State, e: Event): State
    requires Enabled(s, e)
  {
    match e
    case Collect(now) => s.(store := NoncesCollected(s.store, now))
    case Challenge(nonce, now) =>
      s.(store := NoncePut(s.store, nonce, Nonce(now + NONCE_TTL, None)), minted := s.minted + {nonce})
    case TakeProof(request, host, code) =>
      var (rest, data) := NonceTaken(s.store, host);
      if data.None? then s
      else s.(store := rest, callbacks := s.callbacks[request := Taken(host, data.value.expires, code)])
    case OpenSession(request, now, sid) =>
      var c := s.callbacks[request];
      if c.expires < now then s.(callbacks := s.callbacks - {request})
      else s.(store := SessionPut(s.store, sid, Session(c.code, now + SESSION_TTL)),
              callbacks := s.callbacks[request := Opened(c.nonce, sid)],
              openedFor := s.openedFor[sid := c.nonce])
    case Bind(request, now) =>
      var c := s.callbacks[request];
      s.(store := NoncePut(s.store, Claim(c.nonce), Nonce(now + NONCE_TTL, Some(c.sid))),
         callbacks := s.callbacks - {request})
    case Poll(nonce) =>
      var (rest, data) := NonceTaken(s.store, Claim(nonce));
      if data.None? || data.value.sid.None? then s.(store := rest)
      else s.(store := rest, deliveries := s.deliveries + [Delivery(nonce, data.value.sid.value)])
    case AskSession(id, now) => s.(store := SessionAsked(s.store, id, now).0)
    case DropSession(id) => s.(store := SessionDropped(s.store, id))
  }

  const EMPTY := State(Tables(map[], map[]), map[], {}, map[], [])

  // An event that cannot happen does not.
  function Step(s: State, e: Event): State {
    if Enabled(s, e) then Apply(s, e) else s
  }

  function Run(s: State, es: seq<Event>): State
    decreases es
  {
    if es == [] then s else Run(Step(s, es[0]), es[1..])
  }

  // ----- what every step keeps

  ghost predicate Delivered(s: State, sid: string) {
    exists i :: 0 <= i < |s.deliveries| && s.deliveries[i].sid == sid
  }

  // A nonce is in the store, in one callback, or spent on one session, and never two of these.
  ghost predicate NoncesOnce(s: State) {
    && (forall k :: k in s.store.nonces && ':' !in k ==> k in s.minted)
    && (forall r :: r in s.callbacks ==> s.callbacks[r].nonce in s.minted && s.callbacks[r].nonce !in s.store.nonces)
    && (forall q, r :: q in s.callbacks && r in s.callbacks && s.callbacks[q].nonce == s.callbacks[r].nonce ==> q == r)
    && (forall sid :: sid in s.openedFor ==> s.openedFor[sid] in s.minted && s.openedFor[sid] !in s.store.nonces)
    && (forall r, sid :: r in s.callbacks && s.callbacks[r].Taken? && sid in s.openedFor ==>
          s.openedFor[sid] != s.callbacks[r].nonce)
    && (forall a, b :: a in s.openedFor && b in s.openedFor && s.openedFor[a] == s.openedFor[b] ==> a == b)
    && (forall n :: n in s.minted ==> ':' !in n)
  }

  // A session is with its callback, bound to its nonce, or delivered, and never two of these.
  ghost predicate SessionsOnce(s: State) {
    && (forall r :: r in s.callbacks && s.callbacks[r].Opened? ==>
          && s.callbacks[r].sid in s.openedFor && s.openedFor[s.callbacks[r].sid] == s.callbacks[r].nonce
          && Claim(s.callbacks[r].nonce) !in s.store.nonces && !Delivered(s, s.callbacks[r].sid))
    && (forall n :: Claim(n) in s.store.nonces ==>
          var sid := s.store.nonces[Claim(n)].sid;
          sid.Some? && sid.value in s.openedFor && s.openedFor[sid.value] == n && !Delivered(s, sid.value))
    && (forall i :: 0 <= i < |s.deliveries| ==>
          s.deliveries[i].sid in s.openedFor && s.openedFor[s.deliveries[i].sid] == s.deliveries[i].nonce)
    && (forall i, j :: 0 <= i < j < |s.deliveries| ==> s.deliveries[i].sid != s.deliveries[j].sid)
  }

  lemma ClaimsDiffer(a: string, b: string)
    ensures ':' in Claim(a) && (Claim(a) == Claim(b) ==> a == b)
  {
    assert Claim(a)[7] == ':';
    assert Claim(a)[8..] == a && Claim(b)[8..] == b;
  }

  lemma ClaimKeys()
    ensures forall n :: ':' in Claim(n)
    ensures forall a, b :: Claim(a) == Claim(b) ==> a == b
  {
    forall n ensures ':' in Claim(n) { ClaimsDiffer(n, n); }
    forall a, b ensures Claim(a) == Claim(b) ==> a == b { ClaimsDiffer(a, b); }
  }

  ghost predicate Sound(s: State) {
    NoncesOnce(s) && SessionsOnce(s)
  }

  lemma CollectKeeps(s: State, now: int)
    requires Sound(s)
    ensures Sound(Apply(s, Collect(now)))
  {
    hide Claim;
  }

  // Sessions come and go aside.
  lemma SessionsAside(s: State, t: State)
    requires Sound(s) && t.store.nonces == s.store.nonces && t == s.(store := t.store)
    ensures Sound(t)
  {
    hide Claim;
    forall x ensures Delivered(t, x) <==> Delivered(s, x) { SameDeliveries(s, t, x); }
    hide Delivered;
  }

  lemma ChallengeKeeps(s: State, e: Event)
    requires Sound(s) && Enabled(s, e) && (e.Challenge?)
    ensures Sound(Apply(s, e))
  {
    hide Claim;
    ClaimKeys();
  }

  lemma ProofKeeps(s: State, e: Event)
    requires Sound(s) && Enabled(s, e) && e.TakeProof?
    ensures NoncesOnce(Apply(s, e))
  {
    hide Claim, SessionsOnce;
  }

  lemma ProofKeepsSessions(s: State, e: Event)
    requires Sound(s) && Enabled(s, e) && e.TakeProof?
    ensures SessionsOnce(Apply(s, e))
  {
    hide Claim, NoncesOnce, Delivered;
    ClaimKeys();
    var t := Apply(s, e);
    forall x ensures Delivered(t, x) <==> Delivered(s, x) { SameDeliveries(s, t, x); }
  }

  lemma OpenKeeps(s: State, e: Event)
    requires Sound(s) && Enabled(s, e) && (e.OpenSession?)
    ensures NoncesOnce(Apply(s, e))
  {
    hide Claim, SessionsOnce;
    ClaimKeys();
  }

  // A taken nonce is bound to no session, and a new session is not delivered.
  lemma NotYetBound(s: State, request: nat, sid: string)
    requires Sound(s) && request in s.callbacks && s.callbacks[request].Taken? && sid !in s.openedFor
    ensures Claim(s.callbacks[request].nonce) !in s.store.nonces && !Delivered(s, sid)
  {
    hide Claim;
  }

  lemma OpenKeepsSessions(s: State, request: nat, now: int, sid: string)
    requires Sound(s) && Enabled(s, OpenSession(request, now, sid))
    ensures SessionsOnce(Apply(s, OpenSession(request, now, sid)))
  {
    hide Claim, NoncesOnce, Delivered;
    NotYetBound(s, request, sid);
    var t := Apply(s, OpenSession(request, now, sid));
    assert t.store.nonces == s.store.nonces && t.deliveries == s.deliveries;
    forall x ensures Delivered(t, x) <==> Delivered(s, x) { SameDeliveries(s, t, x); }
  }

  lemma SameDeliveries(s: State, t: State, sid: string)
    requires s.deliveries == t.deliveries
    ensures Delivered(t, sid) <==> Delivered(s, sid)
  {
  }

  lemma BindKeeps(s: State, e: Event)
    requires Sound(s) && Enabled(s, e) && e.Bind?
    ensures NoncesOnce(Apply(s, e))
  {
    hide Claim;
    ClaimKeys();
  }

  lemma BindKeepsSessions(s: State, e: Event)
    requires Sound(s) && Enabled(s, e) && e.Bind?
    ensures SessionsOnce(Apply(s, e))
  {
    hide Claim;
    ClaimKeys();
  }

  lemma PollKeeps(s: State, e: Event)
    requires Sound(s) && Enabled(s, e) && (e.Poll?)
    ensures Sound(Apply(s, e))
  {
    hide Claim;
    ClaimKeys();
  }

  lemma StepKeepsSound(s: State, e: Event)
    requires Sound(s)
    ensures Sound(Step(s, e))
  {
    hide NoncesOnce, SessionsOnce, NoncesCollected, NoncePut, NonceTaken, SessionPut;
    if !Enabled(s, e) { return; }
    match e
    case Collect(now) => CollectKeeps(s, now);
    case AskSession(id, now) => SessionsAside(s, s.(store := SessionAsked(s.store, id, now).0));
    case DropSession(id) => SessionsAside(s, s.(store := SessionDropped(s.store, id)));
    case Challenge(_, _) => ChallengeKeeps(s, e);
    case TakeProof(_, _, _) => ProofKeeps(s, e); ProofKeepsSessions(s, e);
    case OpenSession(request, now, sid) => OpenKeeps(s, e); OpenKeepsSessions(s, request, now, sid);
    case Bind(_, _) => BindKeeps(s, e); BindKeepsSessions(s, e);
    case Poll(_) => PollKeeps(s, e);
  }

  lemma {:induction false} RunKeepsSound(s: State, es: seq<Event>)
    requires Sound(s)
    ensures Sound(Run(s, es))
    decreases es
  {
    hide Sound, Step;
    if es != [] {
      StepKeepsSound(s, es[0]);
      RunKeepsSound(Step(s, es[0]), es[1..]);
    }
  }

  lemma StartsSound()
    ensures Sound(EMPTY)
  {
  }

  // Over every run, each challenge opens at most one session, and only a minted challenge does.
  lemma OneSessionPerChallenge(es: seq<Event>)
    ensures var s := Run(EMPTY, es);
      && (forall sid :: sid in s.openedFor ==> s.openedFor[sid] in s.minted)
      && (forall a, b :: a in s.openedFor && b in s.openedFor && s.openedFor[a] == s.openedFor[b] ==> a == b)
  {
    hide Run, SessionsOnce;
    StartsSound();
    RunKeepsSound(EMPTY, es);
  }

  // Over every run, each session reaches at most one poll, one that named the challenge it was
  // opened for, and each challenge is answered at most once.
  lemma OnePollPerSession(es: seq<Event>)
    ensures var s := Run(EMPTY, es);
      && (forall i :: 0 <= i < |s.deliveries| ==>
            s.deliveries[i].sid in s.openedFor && s.openedFor[s.deliveries[i].sid] == s.deliveries[i].nonce)
      && (forall i, j :: 0 <= i < j < |s.deliveries| ==>
            s.deliveries[i].sid != s.deliveries[j].sid && s.deliveries[i].nonce != s.deliveries[j].nonce)
  {
    hide Run;
    StartsSound();
    RunKeepsSound(EMPTY, es);
  }

  // A nonce once taken, whatever became of its callback, is never found again.
  lemma {:induction false} TakenOnce(s: State, nonce: string, es: seq<Event>)
    requires Sound(s) && nonce in s.minted && nonce !in s.store.nonces
    ensures nonce !in Run(s, es).store.nonces
    decreases es
  {
    hide NoncesOnce, SessionsOnce, Step;
    if es != [] {
      StaysTaken(s, nonce, es[0]);
      StepKeepsSound(s, es[0]);
      TakenOnce(Step(s, es[0]), nonce, es[1..]);
    }
  }

  lemma StaysTaken(s: State, nonce: string, e: Event)
    requires Sound(s) && nonce in s.minted && nonce !in s.store.nonces
    ensures nonce in Step(s, e).minted && nonce !in Step(s, e).store.nonces
  {
    MintedPlain(s, nonce);
    ClaimKeys();
    hide NoncesOnce, SessionsOnce;
  }

  lemma MintedPlain(s: State, nonce: string)
    requires Sound(s) && nonce in s.minted
    ensures ':' !in nonce
  {
  }

  // ----- what a session rests on

  // The event came, after these others, and was possible.
  ghost predicate Happened(h: seq<Event>, e: Event) {
    exists i :: 0 <= i < |h| && h[i] == e && Enabled(Run(EMPTY, h[..i]), e)
  }

  lemma HappenedStays(h: seq<Event>, x: Event, e: Event)
    requires Happened(h, e)
    ensures Happened(h + [x], e)
  {
    hide Enabled, Run;
    var i :| 0 <= i < |h| && h[i] == e && Enabled(Run(EMPTY, h[..i]), e);
    assert (h + [x])[..i] == h[..i] && (h + [x])[i] == e;
  }

  lemma HappensNow(h: seq<Event>, e: Event)
    requires Enabled(Run(EMPTY, h), e)
    ensures Happened(h + [e], e)
  {
    hide Enabled, Run;
    assert (h + [e])[..|h|] == h && (h + [e])[|h|] == e;
  }

  // The challenge was minted five minutes before this.
  ghost predicate NonceBacked(h: seq<Event>, nonce: string, expires: int) {
    exists at :: Happened(h, Challenge(nonce, at)) && expires == at + 300_000
  }

  ghost predicate ClaimBacked(h: seq<Event>, expires: int) {
    exists r, at :: Happened(h, Bind(r, at)) && expires == at + 300_000
  }

  // The session was opened, no later than five minutes after its challenge was minted, by the very
  // request that proved its payment code for that challenge, and lasts twelve hours.
  ghost predicate SessionBacked(h: seq<Event>, nonce: string, sid: string, session: Session) {
    exists at, r, start ::
      && Happened(h, Challenge(nonce, at)) && Happened(h, TakeProof(r, nonce, session.code))
      && Happened(h, OpenSession(r, start, sid))
      && start <= at + 300_000 && session.expires == start + 43_200_000
  }

  // Whatever the one history backs the other backs too.
  ghost predicate Extends(h: seq<Event>, g: seq<Event>) {
    && (forall e :: Happened(h, e) ==> Happened(g, e))
    && (forall n, x :: NonceBacked(h, n, x) ==> NonceBacked(g, n, x))
    && (forall x :: ClaimBacked(h, x) ==> ClaimBacked(g, x))
    && (forall n, sid, x :: SessionBacked(h, n, sid, x) ==> SessionBacked(g, n, sid, x))
  }

  lemma OneMore(h: seq<Event>, x: Event)
    ensures Extends(h, h + [x])
  {
    var g := h + [x];
    forall e | Happened(h, e) ensures Happened(g, e) { HappenedStays(h, x, e); }
    hide Happened;
    forall n, sid, session | SessionBacked(h, n, sid, session) ensures SessionBacked(g, n, sid, session) {
      var at, r, start :|
        && Happened(h, Challenge(n, at)) && Happened(h, TakeProof(r, n, session.code))
        && Happened(h, OpenSession(r, start, sid))
        && start <= at + 300_000 && session.expires == start + 43_200_000;
      assert Happened(g, OpenSession(r, start, sid));
    }
  }

  ghost predicate NoncesBacked(h: seq<Event>, s: State) {
    && (forall k :: k in s.store.nonces && ':' !in k ==> NonceBacked(h, k, s.store.nonces[k].expires))
    && (forall n :: Claim(n) in s.store.nonces ==> ClaimBacked(h, s.store.nonces[Claim(n)].expires))
  }

  ghost predicate ProofsBacked(h: seq<Event>, s: State) {
    forall r :: r in s.callbacks && s.callbacks[r].Taken? ==>
      && NonceBacked(h, s.callbacks[r].nonce, s.callbacks[r].expires)
      && Happened(h, TakeProof(r, s.callbacks[r].nonce, s.callbacks[r].code))
  }

  ghost predicate SessionsBacked(h: seq<Event>, s: State) {
    forall sid :: sid in s.store.sessions ==>
      sid in s.openedFor && SessionBacked(h, s.openedFor[sid], sid, s.store.sessions[sid])
  }

  ghost predicate Backed(h: seq<Event>, s: State) {
    NoncesBacked(h, s) && ProofsBacked(h, s) && SessionsBacked(h, s)
  }

  // What nothing new is added to stays backed.
  lemma NothingNew(h: seq<Event>, g: seq<Event>, s: State, t: State)
    requires Backed(h, s) && Extends(h, g) && t.openedFor == s.openedFor
    requires forall k :: k in t.store.nonces ==> k in s.store.nonces && t.store.nonces[k] == s.store.nonces[k]
    requires forall r :: r in t.callbacks && t.callbacks[r].Taken? ==>
               r in s.callbacks && t.callbacks[r] == s.callbacks[r]
    requires forall k :: k in t.store.sessions ==> k in s.store.sessions && t.store.sessions[k] == s.store.sessions[k]
    ensures Backed(g, t)
  {
    hide Happened, NonceBacked, ClaimBacked, SessionBacked, Claim;
  }

  lemma NewNonce(h: seq<Event>, nonce: string, now: int)
    requires Happened(h, Challenge(nonce, now))
    ensures NonceBacked(h, nonce, now + 300_000)
  {
    hide Happened;
  }

  lemma NewClaim(h: seq<Event>, request: nat, now: int)
    requires Happened(h, Bind(request, now))
    ensures ClaimBacked(h, now + 300_000)
  {
    hide Happened;
  }

  lemma NewSession(h: seq<Event>, nonce: string, request: nat, code: string, expires: int, now: int, sid: string)
    requires NonceBacked(h, nonce, expires) && now <= expires
    requires Happened(h, TakeProof(request, nonce, code)) && Happened(h, OpenSession(request, now, sid))
    ensures SessionBacked(h, nonce, sid, Session(code, now + 43_200_000))
  {
    hide Happened;
  }

  lemma ChallengeBacked(h: seq<Event>, g: seq<Event>, s: State, nonce: string, now: int)
    requires Backed(h, s) && Extends(h, g) && Happened(g, Challenge(nonce, now)) && ':' !in nonce
    requires Enabled(s, Challenge(nonce, now))
    ensures Backed(g, Apply(s, Challenge(nonce, now)))
  {
    hide Happened, NonceBacked, ClaimBacked, SessionBacked, Claim;
    NewNonce(g, nonce, now);
    ClaimKeys();
  }

  lemma ProofBacked(h: seq<Event>, g: seq<Event>, s: State, request: nat, host: string, code: string)
    requires Backed(h, s) && Extends(h, g) && Happened(g, TakeProof(request, host, code))
    requires Enabled(s, TakeProof(request, host, code))
    ensures Backed(g, Apply(s, TakeProof(request, host, code)))
  {
    hide Happened, NonceBacked, ClaimBacked, SessionBacked, Claim;
  }

  lemma OpenBacked(h: seq<Event>, g: seq<Event>, s: State, request: nat, now: int, sid: string)
    requires Backed(h, s) && Extends(h, g) && Happened(g, OpenSession(request, now, sid))
    requires Enabled(s, OpenSession(request, now, sid))
    ensures Backed(g, Apply(s, OpenSession(request, now, sid)))
  {
    hide Happened, NonceBacked, ClaimBacked, SessionBacked, Claim;
    var c := s.callbacks[request];
    if now <= c.expires { NewSession(g, c.nonce, request, c.code, c.expires, now, sid); }
  }

  lemma BindBacked(h: seq<Event>, g: seq<Event>, s: State, request: nat, now: int)
    requires Backed(h, s) && Extends(h, g) && Happened(g, Bind(request, now)) && Enabled(s, Bind(request, now))
    ensures Backed(g, Apply(s, Bind(request, now)))
  {
    hide Happened, NonceBacked, ClaimBacked, SessionBacked, Claim;
    NewClaim(g, request, now);
    ClaimKeys();
  }

  lemma StepBacked(h: seq<Event>, s: State, e: Event)
    requires Backed(h, s) && s == Run(EMPTY, h)
    ensures Backed(h + [e], Step(s, e))
  {
    hide Backed, Claim, Run, Extends, Happened;
    var g := h + [e];
    OneMore(h, e);
    if !Enabled(s, e) { NothingNew(h, g, s, s); return; }
    HappensNow(h, e);
    match e
    case Challenge(nonce, now) => ChallengeBacked(h, g, s, nonce, now);
    case TakeProof(request, host, code) => ProofBacked(h, g, s, request, host, code);
    case OpenSession(request, now, sid) => OpenBacked(h, g, s, request, now, sid);
    case Bind(request, now) => BindBacked(h, g, s, request, now);
    case _ => NothingNew(h, g, s, Apply(s, e));
  }

  lemma {:induction false} RunAppend(s: State, es: seq<Event>, e: Event)
    ensures Run(s, es + [e]) == Step(Run(s, es), e)
    decreases es
  {
    hide Step;
    if es == [] {
      assert [] + [e] == [e] && [e][1..] == [];
    } else {
      assert (es + [e])[0] == es[0] && (es + [e])[1..] == es[1..] + [e];
      RunAppend(Step(s, es[0]), es[1..], e);
    }
  }

  lemma {:induction false} RunBacked(es: seq<Event>)
    ensures Backed(es, Run(EMPTY, es))
  {
    hide Backed, Run;
    if es == [] {
      StartsBacked();
    } else {
      var n := |es| - 1;
      RunBacked(es[..n]);
      assert es == es[..n] + [es[n]];
      RunAppend(EMPTY, es[..n], es[n]);
      StepBacked(es[..n], Run(EMPTY, es[..n]), es[n]);
    }
  }

  lemma StartsBacked()
    ensures Backed([], Run(EMPTY, []))
  {
  }

  /** Over every run, a session that is found belongs to the payment code proved for a challenge
      that was minted, and proved and opened by one request within five minutes of that, less than
      twelve hours ago. */
  lemma SessionsAreProved(es: seq<Event>, id: string, now: int)
    requires SessionAsked(Run(EMPTY, es).store, id, now).1.Some?
    ensures var (s, found) := (Run(EMPTY, es), SessionAsked(Run(EMPTY, es).store, id, now).1.value);
      id in s.openedFor && SessionBacked(es, s.openedFor[id], id, found) && now <= found.expires
  {
    hide Run, SessionBacked;
    RunBacked(es);
  }

  // ----- a login goes through

  datatype Login =
    Login(nonce: string, request: nat, code: string, sid: string, mintedAt: int, openedAt: int, boundAt: int)

  // A login in time, with a new nonce, request and session id.
  predicate InTime(l: Login, s: State) {
    && l.nonce !in s.minted && ':' !in l.nonce && l.request !in s.callbacks && l.sid !in s.openedFor
    && l.sid != "" && l.mintedAt <= l.openedAt <= l.mintedAt + NONCE_TTL && l.openedAt <= l.boundAt
  }

  // An event that neither collects after expiry nor uses the login's nonce, request or session.
  predicate Aside(l: Login, e: Event) {
    match e
    case Collect(now) => now <= l.mintedAt + NONCE_TTL
    case TakeProof(request, host, _) => request != l.request && host != l.nonce
    case OpenSession(request, _, sid) => request != l.request && sid != l.sid
    case Bind(request, _) => request != l.request
    case Poll(nonce) => nonce != l.nonce
    case AskSession(id, now) => id != l.sid || now <= l.mintedAt + SESSION_TTL
    case DropSession(id) => id != l.sid
    case _ => true
  }

  predicate AllAside(l: Login, es: seq<Event>) {
    forall i :: 0 <= i < |es| ==> Aside(l, es[i])
  }

  datatype Stage = Challenged | Proved | Started | Claimed

  // How far a login has come: nothing else holds its nonce, request or session.
  ghost predicate At(l: Login, stage: Stage, s: State) {
    && l.nonce in s.minted && ':' !in l.nonce
    && (stage.Challenged? ==>
          && l.nonce in s.store.nonces && s.store.nonces[l.nonce].expires == l.mintedAt + NONCE_TTL
          && l.request !in s.callbacks && l.sid !in s.openedFor)
    && (stage.Proved? ==>
          && l.request in s.callbacks && s.callbacks[l.request] == Taken(l.nonce, l.mintedAt + NONCE_TTL, l.code)
          && l.sid !in s.openedFor)
    && (stage.Started? ==> l.request in s.callbacks && s.callbacks[l.request] == Opened(l.nonce, l.sid) && Kept(l, s))
    && (stage.Claimed? ==>
          && Claim(l.nonce) in s.store.nonces && Kept(l, s)
          && s.store.nonces[Claim(l.nonce)].expires >= l.mintedAt + NONCE_TTL
          && s.store.nonces[Claim(l.nonce)].sid == Some(l.sid))
  }

  ghost predicate Kept(l: Login, s: State) {
    l.sid in s.store.sessions && s.store.sessions[l.sid] == Session(l.code, l.openedAt + SESSION_TTL)
  }

  lemma AsideKeepsProof(l: Login, stage: Stage, s: State, e: Event)
    requires At(l, stage, s) && Aside(l, e) && (stage.Challenged? || stage.Proved?)
    ensures At(l, stage, Step(s, e))
  {
    hide Claim;
    ClaimKeys();
  }

  lemma AsideKeepsStarted(l: Login, s: State, e: Event)
    requires At(l, Started, s) && Aside(l, e) && l.mintedAt <= l.openedAt
    ensures At(l, Started, Step(s, e))
  {
    hide Claim;
  }

  lemma AsideKeepsClaimed(l: Login, s: State, e: Event)
    requires Sound(s) && At(l, Claimed, s) && Aside(l, e) && l.mintedAt <= l.openedAt
    ensures At(l, Claimed, Step(s, e))
  {
    NotBoundTwice(s, l.nonce);
    hide Sound, Claim;
    ClaimKeys();
  }

  lemma AsideKeeps(l: Login, stage: Stage, s: State, e: Event)
    requires Sound(s) && At(l, stage, s) && Aside(l, e) && l.mintedAt <= l.openedAt
    ensures At(l, stage, Step(s, e))
  {
    hide At, Step, Sound;
    match stage
    case Started => AsideKeepsStarted(l, s, e);
    case Claimed => AsideKeepsClaimed(l, s, e);
    case _ => AsideKeepsProof(l, stage, s, e);
  }

  lemma NotBoundTwice(s: State, nonce: string)
    requires Sound(s) && Claim(nonce) in s.store.nonces
    ensures forall r :: r in s.callbacks && s.callbacks[r].Opened? ==> s.callbacks[r].nonce != nonce
  {
    hide Claim;
  }

  lemma {:induction false} AllAsideKeep(l: Login, stage: Stage, s: State, es: seq<Event>)
    requires Sound(s) && At(l, stage, s) && AllAside(l, es) && l.mintedAt <= l.openedAt
    ensures At(l, stage, Run(s, es)) && Sound(Run(s, es))
    decreases es
  {
    hide Sound, At, Aside, Step;
    if es != [] {
      AsideKeeps(l, stage, s, es[0]);
      StepKeepsSound(s, es[0]);
      AllAsideKeep(l, stage, Step(s, es[0]), es[1..]);
    }
  }

  // Each event of the login itself is possible when its stage is reached, and leads to the next.
  lemma Challenges(l: Login, s: State)
    requires InTime(l, s)
    ensures At(l, Challenged, Step(s, Challenge(l.nonce, l.mintedAt)))
  {
    hide Claim;
  }

  lemma Proves(l: Login, s: State)
    requires At(l, Challenged, s)
    ensures At(l, Proved, Step(s, TakeProof(l.request, l.nonce, l.code)))
  {
    hide Claim;
  }

  lemma Opens(l: Login, s: State)
    requires At(l, Proved, s) && l.openedAt <= l.mintedAt + NONCE_TTL
    ensures At(l, Started, Step(s, OpenSession(l.request, l.openedAt, l.sid)))
  {
    hide Claim;
  }

  lemma Binds(l: Login, s: State)
    requires At(l, Started, s) && l.mintedAt <= l.boundAt
    ensures At(l, Claimed, Step(s, Bind(l.request, l.boundAt)))
  {
    hide Claim;
  }

  lemma Polls(l: Login, s: State)
    requires At(l, Claimed, s)
    ensures var t := Step(s, Poll(l.nonce)); t.deliveries == s.deliveries + [Delivery(l.nonce, l.sid)] && Kept(l, t)
  {
    hide Claim;
  }

  /** From every reachable state a login in time goes through, whatever else happens between its
      five events: the poll gets the session, which belongs to the payment code proved. */
  lemma LoginCompletes(l: Login, s: State, es1: seq<Event>, es2: seq<Event>, es3: seq<Event>, es4: seq<Event>)
    requires Sound(s) && InTime(l, s)
    requires AllAside(l, es1) && AllAside(l, es2) && AllAside(l, es3) && AllAside(l, es4)
    ensures var s1 := Run(Step(s, Challenge(l.nonce, l.mintedAt)), es1);
      var s2 := Run(Step(s1, TakeProof(l.request, l.nonce, l.code)), es2);
      var s3 := Run(Step(s2, OpenSession(l.request, l.openedAt, l.sid)), es3);
      var s4 := Run(Step(s3, Bind(l.request, l.boundAt)), es4);
      var s5 := Step(s4, Poll(l.nonce));
      s5.deliveries == s4.deliveries + [Delivery(l.nonce, l.sid)] && Kept(l, s5)
  {
    hide Sound, At, Step, Run, Kept, AllAside;
    Challenges(l, s);
    StepKeepsSound(s, Challenge(l.nonce, l.mintedAt));
    var s1 := Run(Step(s, Challenge(l.nonce, l.mintedAt)), es1);
    AllAsideKeep(l, Challenged, Step(s, Challenge(l.nonce, l.mintedAt)), es1);
    var p := TakeProof(l.request, l.nonce, l.code);
    Proves(l, s1);
    StepKeepsSound(s1, p);
    AllAsideKeep(l, Proved, Step(s1, p), es2);
    var s2 := Run(Step(s1, p), es2);
    var o := OpenSession(l.request, l.openedAt, l.sid);
    Opens(l, s2);
    StepKeepsSound(s2, o);
    AllAsideKeep(l, Started, Step(s2, o), es3);
    var s3 := Run(Step(s2, o), es3);
    Binds(l, s3);
    StepKeepsSound(s3, Bind(l.request, l.boundAt));
    AllAsideKeep(l, Claimed, Step(s3, Bind(l.request, l.boundAt)), es4);
    Polls(l, Run(Step(s3, Bind(l.request, l.boundAt)), es4));
  }
}
