/** gateway/index-state.ts under crashes: calls overlap at every await, each snapshot is written
    to a temporary file and renamed over the real one, in any order, and the process may die at
    any step. The store is already loaded; rename is atomic. */
module IndexCrash {
  import opened IndexState
  import opened IndexRuns

  // A write has the number it was begun with, the snapshot it renames, and what its call did.
  datatype Write = Write(number: nat, snapshot: IndexState, request: Request, event: Event)

  /** `line` is the run that memory is at, write by write, and `kept` how many of them the real
      file holds. Places in the line of writes not yet renamed are in `writing`; numbers whose
      callers wait for their answer in `waiting`; what callers were told in `answered`. */
  datatype System = System(
    mem: IndexState, disk: IndexState, line: seq<Write>, kept: nat, begun: nat,
    writing: set<nat>, waiting: map<nat, Event>, answered: map<nat, Event>)

  // Begin runs the synchronous part of a call, up to its snapshot. A crash ends all calls, and
  // is followed by a reload.
  datatype Action = Begin(request: Request) | Rename(place: nat) | Answer(number: nat) | Crash

  const START := System(EMPTY, EMPTY, [], 0, 0, {}, map[], map[])

  function Next(y: System, q: int, a: Action): System {
    match a
    case Begin(r) =>
      var (s, e) := Step(y.mem, q, r);
      if e.Ignored? then y
      else y.(mem := s, line := y.line + [Write(y.begun, s, r, e)], begun := y.begun + 1,
              writing := y.writing + {|y.line|})
    case Rename(p) =>
      if p !in y.writing || p >= |y.line| then y
      else y.(disk := y.line[p].snapshot, kept := p + 1, writing := y.writing - {p},
              waiting := y.waiting[y.line[p].number := y.line[p].event])
    case Answer(n) =>
      if n !in y.waiting then y else y.(answered := y.answered[n := y.waiting[n]], waiting := y.waiting - {n})
    case Crash =>
      if y.kept > |y.line| then y
      else y.(mem := y.disk, line := y.line[..y.kept], writing := {}, waiting := map[])
  }

  function After(q: int, actions: seq<Action>): System {
    if actions == [] then START
    else Next(After(q, actions[..|actions| - 1]), q, actions[|actions| - 1])
  }

  lemma AfterSnoc(q: int, actions: seq<Action>, a: Action)
    ensures After(q, actions + [a]) == Next(After(q, actions), q, a)
  {
    assert (actions + [a])[..|actions + [a]| - 1] == actions;
  }

  function Requests(ws: seq<Write>): (rs: seq<Request>)
    ensures |rs| == |ws|
  {
    if ws == [] then [] else Requests(ws[..|ws| - 1]) + [ws[|ws| - 1].request]
  }

  // A list of writes is a run of the store: each carries the state and event its prefix leads to.
  ghost predicate Chain(q: int, ws: seq<Write>) {
    ws == [] ||
    var n := |ws| - 1;
    && Chain(q, ws[..n])
    && (ws[n].snapshot, ws[n].event) == Step(Final(q, Requests(ws[..n])), q, ws[n].request)
  }

  lemma ChainFinal(q: int, ws: seq<Write>)
    requires Chain(q, ws)
    ensures Final(q, Requests(ws)) == if ws == [] then EMPTY else ws[|ws| - 1].snapshot
  {
    if ws != [] {
      var n := |ws| - 1;
      assert Requests(ws)[..n] == Requests(ws[..n]);
    }
  }

  lemma {:induction false} ChainPrefix(q: int, ws: seq<Write>, n: nat)
    requires Chain(q, ws) && n <= |ws|
    ensures Chain(q, ws[..n])
  {
    if n < |ws| {
      ChainPrefix(q, ws[..|ws| - 1], n);
      assert ws[..|ws| - 1][..n] == ws[..n];
    } else {
      assert ws[..n] == ws;
    }
  }

  lemma {:induction false} ChainEvents(q: int, ws: seq<Write>, k: nat)
    requires Chain(q, ws) && k < |ws|
    ensures Events(q, Requests(ws))[k] == ws[k].event
  {
    hide Events, Step, Final;
    var n := |ws| - 1;
    assert Requests(ws)[..n] == Requests(ws[..n]);
    if k < n {
      EventsPrefix(q, Requests(ws), n);
      ChainEvents(q, ws[..n], k);
      assert ws[..n][k] == ws[k];
    } else {
      EventAt(q, Requests(ws), n);
    }
  }

  lemma AppendKeepsChain(q: int, ws: seq<Write>, w: Write)
    requires Chain(q, ws)
    requires (w.snapshot, w.event) == Step(Final(q, Requests(ws)), q, w.request)
    ensures Chain(q, ws + [w]) && Final(q, Requests(ws + [w])) == w.snapshot
  {
    assert (ws + [w])[..|ws|] == ws;
    ChainFinal(q, ws + [w]);
  }

  // ----- what every step keeps, in whatever order the renames come

  // Memory is at the end of the line, the file at its first `kept` writes.
  ghost predicate OnLine(y: System, q: int) {
    && Chain(q, y.line) && y.kept <= |y.line|
    && y.mem == Final(q, Requests(y.line))
    && y.disk == Final(q, Requests(y.line[..y.kept]))
  }

  // Write n is in the line, with event e.
  ghost predicate Has(line: seq<Write>, n: nat, e: Event) {
    exists p :: 0 <= p < |line| && line[p].number == n && line[p].event == e
  }

  // Numbers grow along the line, and calls wait for writes in it.
  ghost predicate Numbered(y: System) {
    && (forall i, j :: 0 <= i < j < |y.line| ==> y.line[i].number < y.line[j].number)
    && (forall i :: 0 <= i < |y.line| ==> y.line[i].number < y.begun)
    && (forall n :: n in y.waiting ==> Has(y.line, n, y.waiting[n]))
    && (forall n :: n in y.answered ==> n < y.begun)
    && (forall p :: 0 <= p < |y.line| && y.line[p].number in y.answered ==>
          y.answered[y.line[p].number] == y.line[p].event)
  }

  lemma BeginOnLine(y: System, q: int, r: Request)
    requires OnLine(y, q)
    ensures OnLine(Next(y, q, Begin(r)), q)
  {
    var z := Next(y, q, Begin(r));
    if z != y {
      AppendKeepsChain(q, y.line, z.line[|y.line|]);
      assert z.line[..z.kept] == y.line[..y.kept];
    }
  }

  lemma RenameOnLine(y: System, q: int, p: nat)
    requires OnLine(y, q)
    ensures OnLine(Next(y, q, Rename(p)), q)
  {
    hide Chain, Final, Requests;
    if p < |y.line| {
      ChainPrefix(q, y.line, p + 1);
      ChainFinal(q, y.line[..p + 1]);
    }
  }

  lemma CrashOnLine(y: System, q: int)
    requires OnLine(y, q)
    ensures OnLine(Next(y, q, Crash), q)
  {
    hide Chain, Final, Requests, Step;
    ChainPrefix(q, y.line, y.kept);
    assert y.line[..y.kept][..y.kept] == y.line[..y.kept];
  }

  lemma HasMore(line: seq<Write>, w: Write, n: nat, e: Event)
    ensures Has(line + [w], n, e) <==> Has(line, n, e) || (w.number == n && w.event == e)
  {
    var more := line + [w];
    if Has(line, n, e) {
      var p :| 0 <= p < |line| && line[p].number == n && line[p].event == e;
      assert more[p] == line[p];
    }
    if w.number == n && w.event == e { assert more[|line|] == w; }
  }

  lemma StepNumbered(y: System, q: int, a: Action)
    requires Numbered(y)
    ensures Numbered(Next(y, q, a))
  {
    hide Step, Has;
    var z := Next(y, q, a);
    match a
    case Begin(r) =>
      if z != y {
        forall n | n in z.waiting ensures Has(z.line, n, z.waiting[n]) {
          HasMore(y.line, z.line[|y.line|], n, z.waiting[n]);
        }
      }
    case Rename(p) => if z != y { HasAt(y.line, p); }
    case Answer(n) => if z != y { WaitedFor(y, n); }
    case Crash =>
  }

  lemma HasAt(line: seq<Write>, p: nat)
    requires p < |line|
    ensures Has(line, line[p].number, line[p].event)
  {
  }

  lemma WaitedFor(y: System, n: nat)
    requires Numbered(y) && n in y.waiting
    ensures n < y.begun
    ensures forall p :: 0 <= p < |y.line| && y.line[p].number == n ==> y.line[p].event == y.waiting[n]
  {
  }

  lemma {:induction false} AlwaysOnLine(q: int, actions: seq<Action>)
    ensures OnLine(After(q, actions), q) && Numbered(After(q, actions))
  {
    hide OnLine, Numbered, Next;
    if actions == [] {
      StartsOnLine(q);
    } else {
      var y := After(q, actions[..|actions| - 1]);
      AlwaysOnLine(q, actions[..|actions| - 1]);
      StepOnLine(y, q, actions[|actions| - 1]);
      StepNumbered(y, q, actions[|actions| - 1]);
    }
  }

  lemma StartsOnLine(q: int)
    ensures OnLine(START, q) && Numbered(START)
  {
  }

  lemma StepOnLine(y: System, q: int, a: Action)
    requires OnLine(y, q)
    ensures OnLine(Next(y, q, a), q)
  {
    match a
    case Begin(r) => BeginOnLine(y, q, r);
    case Rename(p) => RenameOnLine(y, q, p);
    case Answer(_) =>
    case Crash => CrashOnLine(y, q);
  }

  /** At any moment of any run, whatever the order of the renames, the file holds a state in which
      the lists partition the chain. */
  lemma DiskIsAlwaysPartitioned(q: int, actions: seq<Action>)
    ensures Partition(After(q, actions).disk) && Partition(After(q, actions).mem)
  {
    AlwaysOnLine(q, actions);
    var y := After(q, actions);
    RunAgrees(q, Requests(y.line[..y.kept]));
    RunAgrees(q, Requests(y.line));
  }

  /** A reload goes back to the run of the writes up to the one renamed last, and to its events. */
  lemma ReloadIsTheRunKept(q: int, actions: seq<Action>)
    ensures var (y, z) := (After(q, actions), After(q, actions + [Crash]));
            && y.kept <= |y.line| && z.line == y.line[..y.kept]
            && z.mem == Final(q, Requests(z.line))
            && forall p :: 0 <= p < |z.line| ==> Events(q, Requests(z.line))[p] == z.line[p].event
  {
    hide Next;
    AlwaysOnLine(q, actions);
    AlwaysOnLine(q, actions + [Crash]);
    AfterSnoc(q, actions, Crash);
    var z := After(q, actions + [Crash]);
    CrashLine(After(q, actions), q);
    forall p | 0 <= p < |z.line| ensures Events(q, Requests(z.line))[p] == z.line[p].event {
      ChainEvents(q, z.line, p);
    }
  }

  lemma CrashLine(y: System, q: int)
    requires OnLine(y, q)
    ensures Next(y, q, Crash).line == y.line[..y.kept] && Next(y, q, Crash).answered == y.answered
  {
    hide Chain;
  }

  // ----- when no answer is forgotten

  ghost predicate InLine(line: seq<Write>, n: nat) {
    exists p :: 0 <= p < |line| && line[p].number == n
  }

  // Every answered write is in the run that memory is at.
  ghost predicate Intact(y: System) {
    forall n :: n in y.answered ==> InLine(y.line, n)
  }

  // No answered write is newer than the one renamed last.
  ghost predicate NoneNewer(y: System) {
    forall n :: n in y.answered ==> 0 < y.kept <= |y.line| && n <= y.line[y.kept - 1].number
  }

  /** A crash forgets no answer exactly when no answered write is newer than the one renamed last. */
  lemma CrashKeepsAnswersIff(y: System, q: int)
    requires OnLine(y, q) && Numbered(y) && Intact(y)
    ensures Intact(Next(y, q, Crash)) <==> NoneNewer(y)
  {
    hide InLine, Chain, Requests, Final;
    var z := Next(y, q, Crash);
    forall n | n in y.answered
      ensures InLine(z.line, n) <==> y.kept > 0 && n <= y.line[y.kept - 1].number
    {
      KeptIff(y, n);
    }
  }

  lemma KeptIff(y: System, n: nat)
    requires Numbered(y) && y.kept <= |y.line| && InLine(y.line, n)
    ensures InLine(y.line[..y.kept], n) <==> y.kept > 0 && n <= y.line[y.kept - 1].number
  {
    var p :| 0 <= p < |y.line| && y.line[p].number == n;
    if p < y.kept { assert y.line[..y.kept][p] == y.line[p]; }
  }

  // An answer forgotten once is never in the line again, and only a crash forgets.
  lemma StaysForgotten(y: System, q: int, a: Action)
    requires OnLine(y, q) && Numbered(y) && !Intact(y)
    ensures !Intact(Next(y, q, a))
  {
    hide InLine, Step, Chain, Final, Requests;
    var n :| n in y.answered && !InLine(y.line, n);
    StillMissing(y, q, a, n);
  }

  lemma StillMissing(y: System, q: int, a: Action, n: nat)
    requires OnLine(y, q) && Numbered(y) && n in y.answered && !InLine(y.line, n)
    ensures n in Next(y, q, a).answered && !InLine(Next(y, q, a).line, n)
  {
    hide Step, Chain, Final, Requests;
    var z := Next(y, q, a);
    if a.Begin? && z != y {
      assert forall p :: 0 <= p < |z.line| ==> z.line[p].number == if p < |y.line| then y.line[p].number else y.begun;
    }
  }

  lemma StaysIntact(y: System, q: int, a: Action)
    requires OnLine(y, q) && Numbered(y) && Intact(y) && a != Crash
    ensures Intact(Next(y, q, a))
  {
    hide Step, Chain, Final, Requests;
    var z := Next(y, q, a);
    forall n | n in z.answered ensures InLine(z.line, n) {
      if n in y.answered || n in y.waiting {
        var p :| 0 <= p < |y.line| && y.line[p].number == n;
        assert z.line[p] == y.line[p];
      }
    }
  }

  // Every crash of the run comes when no answered write is newer than the one renamed last.
  ghost predicate HarmlessCrashes(q: int, actions: seq<Action>) {
    forall i :: 0 <= i < |actions| && actions[i] == Crash ==> HarmlessAt(q, actions, i)
  }

  ghost predicate HarmlessAt(q: int, actions: seq<Action>, i: nat)
    requires i <= |actions|
  {
    NoneNewer(After(q, actions[..i]))
  }

  /** Over every run, everything callers were told is in the run the store goes on from if and
      only if each crash came when no answered write was newer than the one renamed last. */
  lemma {:induction false} NothingForgottenIff(q: int, actions: seq<Action>)
    ensures Intact(After(q, actions)) <==> HarmlessCrashes(q, actions)
  {
    hide Next, Intact, NoneNewer, OnLine, Numbered;
    if actions == [] {
      StartsIntact();
    } else {
      var n := |actions| - 1;
      var before := actions[..n];
      var y := After(q, before);
      NothingForgottenIff(q, before);
      AlwaysOnLine(q, before);
      forall i | 0 <= i < n ensures HarmlessAt(q, before, i) <==> HarmlessAt(q, actions, i) {
        assert before[..i] == actions[..i];
      }
      assert HarmlessCrashes(q, actions) <==>
             HarmlessCrashes(q, before) && (actions[n] == Crash ==> HarmlessAt(q, actions, n));
      if !Intact(y) {
        StaysForgotten(y, q, actions[n]);
      } else if actions[n] == Crash {
        CrashKeepsAnswersIff(y, q);
      } else {
        StaysIntact(y, q, actions[n]);
      }
    }
  }

  lemma StartsIntact()
    ensures Intact(START)
  {
  }

  // ----- renames in order

  // Snapshots reach the real file in the order they were taken.
  predicate InOrder(q: int, actions: seq<Action>) {
    forall i :: 0 <= i < |actions| && actions[i].Rename? ==> Oldest(After(q, actions[..i]), actions[i].place)
  }

  predicate Oldest(y: System, p: nat) {
    forall o :: o in y.writing ==> p <= o
  }

  // What is not renamed is newer than the file, and what is waited for is not.
  ghost predicate Ordered(y: System) {
    && y.kept <= |y.line|
    && (forall p :: p in y.writing ==> y.kept <= p)
    && (forall n :: n in y.waiting || n in y.answered ==> y.kept > 0 && n <= y.line[y.kept - 1].number)
  }

  lemma StepOrdered(y: System, q: int, a: Action)
    requires OnLine(y, q) && Numbered(y) && Ordered(y) && (a.Rename? ==> Oldest(y, a.place))
    ensures Ordered(Next(y, q, a))
  {
    hide Step, Chain, Final, Requests, Has;
  }

  /** With renames in order every crash is harmless, so no answer is ever forgotten. */
  lemma {:induction false} InOrderIsHarmless(q: int, actions: seq<Action>)
    requires InOrder(q, actions)
    ensures Ordered(After(q, actions)) && Intact(After(q, actions))
  {
    hide Next, Intact, OnLine, Numbered, Ordered, Oldest;
    if actions == [] {
      StartsIntact();
      StartsOrdered();
    } else {
      var n := |actions| - 1;
      var before := actions[..n];
      var y := After(q, before);
      forall i | 0 <= i < n && before[i].Rename? ensures Oldest(After(q, before[..i]), before[i].place) {
        assert before[..i] == actions[..i] && before[i] == actions[i];
      }
      InOrderIsHarmless(q, before);
      AlwaysOnLine(q, before);
      StepOrdered(y, q, actions[n]);
      if actions[n] == Crash {
        OrderedNoneNewer(y);
        CrashKeepsAnswersIff(y, q);
      } else {
        StaysIntact(y, q, actions[n]);
      }
    }
  }

  lemma StartsOrdered()
    ensures Ordered(START)
  {
  }

  lemma OrderedNoneNewer(y: System)
    requires Ordered(y)
    ensures NoneNewer(y)
  {
  }

  // ----- what callers were told, while nothing is forgotten

  // The place in the line of an answered write.
  lemma AnsweredAt(q: int, actions: seq<Action>, n: nat) returns (p: nat)
    requires Intact(After(q, actions)) && n in After(q, actions).answered
    ensures var y := After(q, actions);
      p < |y.line| && y.line[p].number == n && Events(q, Requests(y.line))[p] == y.answered[n]
  {
    AlwaysOnLine(q, actions);
    var y := After(q, actions);
    p :| 0 <= p < |y.line| && y.line[p].number == n;
    ChainEvents(q, y.line, p);
  }

  // No write after number n concerns index x.
  ghost predicate UnconcernedSince(line: seq<Write>, n: nat, x: int) {
    forall m :: 0 <= m < |line| && line[m].number > n ==> !Concerns(line[m].event, x)
  }

  /** An index a caller was given, and which nothing in the file's run concerns since, is marked as
      issued by whatever a harmless crash at this moment reloads. */
  lemma AnsweredIndexSurvivesCrash(q: int, actions: seq<Action>, n: nat)
    requires n in After(q, actions).answered && After(q, actions).answered[n].Issued?
    requires Intact(After(q, actions + [Crash]))
    requires UnconcernedSince(After(q, actions + [Crash]).line, n, After(q, actions).answered[n].index)
    ensures After(q, actions).answered[n].index in After(q, actions + [Crash]).mem.issued
  {
    hide Intact, Next, Requests, Events, Final, StatusOf;
    var (y, z) := (After(q, actions), After(q, actions + [Crash]));
    ReloadIsTheRunKept(q, actions);
    AnswersStay(q, actions);
    var p := AnsweredAt(q, actions + [Crash], n);
    var (x, es) := (z.answered[n].index, Events(q, Requests(z.line)));
    forall m | p < m < |es| ensures !Concerns(es[m], x) {
      GrowAlong(q, actions + [Crash], p, m);
      assert es[m] == z.line[m].event && z.line[m].number > n;
      assert !Concerns(z.line[m].event, y.answered[n].index);
    }
    StillLive(es, x, p);
    RunAgrees(q, Requests(z.line));
  }

  lemma AnswersStay(q: int, actions: seq<Action>)
    ensures After(q, actions + [Crash]).answered == After(q, actions).answered
  {
    AfterSnoc(q, actions, Crash);
  }

  lemma GrowAlong(q: int, actions: seq<Action>, i: nat, j: nat)
    requires i < j < |After(q, actions).line|
    ensures After(q, actions).line[i].number < After(q, actions).line[j].number
  {
    AlwaysOnLine(q, actions);
  }

  lemma {:induction false} StillLive(es: seq<Event>, x: int, k: nat)
    requires k < |es| && es[k].Issued? && es[k].index == x
    requires forall m :: k < m < |es| ==> !Concerns(es[m], x)
    ensures StatusOf(es, x) == Live
  {
    if k < |es| - 1 { StillLive(es[..|es| - 1], x, k); }
  }

  /** Once a settlement was acknowledged, and while nothing is forgotten, no allocation hands that
      index out again, before or after any number of crashes. */
  lemma AnsweredSettlementIsFinal(q: int, actions: seq<Action>, n: nat, now: int)
    requires Intact(After(q, actions))
    requires n in After(q, actions).answered && After(q, actions).answered[n].Retired?
    ensures var y := After(q, actions); Step(y.mem, q, Allocate(now)).1 != Issued(y.answered[n].index, now)
  {
    hide Intact, Next, Numbered, After, Events, Requests, Chain;
    AlwaysOnLine(q, actions);
    var y := After(q, actions);
    var p := AnsweredAt(q, actions, n);
    var line := Requests(y.line);
    var rs := line + [Allocate(now)];
    EventsPrefix(q, rs, |line|);
    assert rs[..|line|] == line;
    assert Events(q, rs)[p] == Events(q, rs)[..|line|][p];
    EventAt(q, rs, |line|);
    RetiredNeverReturns(q, rs, p, |line|, y.answered[n].index);
  }

  /** While nothing is forgotten, what callers are told obeys the quarantine across crashes: two
      answers naming the same index are separated by a release that rested in full. */
  lemma AnswersNeverCollide(q: int, actions: seq<Action>, m: nat, n: nat, x: int)
    requires Intact(After(q, actions)) && m < n && {m, n} <= After(q, actions).answered.Keys
    requires var a := After(q, actions).answered; a[m].Issued? && a[n].Issued? && a[m].index == x == a[n].index
    ensures var y := After(q, actions);
      exists k :: 0 <= k < |y.line| && m < y.line[k].number < n && y.line[k].event.Returned?
                  && y.line[k].event.index == x && y.answered[n].now - y.line[k].event.at >= q
  {
    hide Intact, Next, Numbered, After, Events, Requests, Chain, Final, Step;
    AlwaysOnLine(q, actions);
    var y := After(q, actions);
    var i := AnsweredAt(q, actions, m);
    var j := AnsweredAt(q, actions, n);
    if j < i { GrowAlong(q, actions, j, i); }
    var rs := Requests(y.line);
    ReissueIsSafe(q, rs, i, j, x);
    var k :| i < k < j && Events(q, rs)[k].Returned? && Events(q, rs)[k].index == x
             && Events(q, rs)[j].now - Events(q, rs)[k].at >= q;
    ChainEvents(q, y.line, k);
    GrowAlong(q, actions, i, k); GrowAlong(q, actions, k, j);
  }

  // ----- the order of the renames matters

  const ONE := IndexState(1, [], [0])
  const TWO := IndexState(2, [], [0, 1])
  const FIRST := Write(0, ONE, Allocate(0), Issued(0, 0))
  const SECOND := Write(1, TWO, Allocate(0), Issued(1, 0))
  const THIRD := Write(2, TWO, Allocate(0), Issued(1, 0))
  const TOLD := map[1 as nat := Issued(1, 0)]

  lemma BeginsFresh(y: System, q: int)
    requires y.mem.reclaimed == [] && y.mem.next !in y.mem.issued
    ensures var s := IndexState(y.mem.next + 1, [], y.mem.issued + [y.mem.next]);
      Next(y, q, Begin(Allocate(0)))
      == y.(mem := s, line := y.line + [Write(y.begun, s, Allocate(0), Issued(y.mem.next, 0))],
            begun := y.begun + 1, writing := y.writing + {|y.line|})
  {
    hide Step;
    AllocateFresh(y.mem, q, 0);
  }

  lemma TwoBegun()
    ensures After(10, [Begin(Allocate(0)), Begin(Allocate(0))])
         == System(TWO, EMPTY, [FIRST, SECOND], 0, 2, {0, 1}, map[], map[])
  {
    hide Next, After;
    var alloc := Begin(Allocate(0));
    AfterNone(10);
    AfterSnoc(10, [], alloc);
    BeginsFresh(START, 10);
    assert [] + [alloc] == [alloc] && [] + [0] == [0] && [] + [FIRST] == [FIRST];
    var y := System(ONE, EMPTY, [FIRST], 0, 1, {0}, map[], map[]);
    assert After(10, [alloc]) == y;
    AfterSnoc(10, [alloc], alloc);
    BeginsFresh(y, 10);
    assert [alloc] + [alloc] == [alloc, alloc] && [0] + [1] == [0, 1] && [FIRST] + [SECOND] == [FIRST, SECOND];
  }

  lemma AfterNone(q: int)
    ensures After(q, []) == START
  {
  }

  // The later snapshot is renamed, then the earlier one, and the later caller is told its index.
  lemma FellBack(y: System)
    requires y == System(TWO, EMPTY, [FIRST, SECOND], 0, 2, {0, 1}, map[], map[])
    ensures Next(Next(Next(Next(y, 10, Rename(1)), 10, Rename(0)), 10, Answer(1)), 10, Crash)
         == System(ONE, ONE, [FIRST], 1, 2, {}, map[], TOLD)
  {
    var y1 := Next(y, 10, Rename(1));
    assert y1 == System(TWO, TWO, [FIRST, SECOND], 2, 2, {0}, map[1 := Issued(1, 0)], map[]);
    var y2 := Next(y1, 10, Rename(0));
    assert y2.disk == ONE && y2.kept == 1 && y2.waiting[1] == Issued(1, 0);
    var y3 := Next(y2, 10, Answer(1));
    assert y3.answered == TOLD;
    assert [FIRST, SECOND][..1] == [FIRST];
  }

  // The index told to the caller before is told to another one.
  lemma ToldAgain(y: System)
    requires y == System(ONE, ONE, [FIRST], 1, 2, {}, map[], TOLD)
    ensures var z := Next(Next(Next(y, 10, Begin(Allocate(0))), 10, Rename(1)), 10, Answer(2));
      z.answered == map[1 := Issued(1, 0), 2 := Issued(1, 0)] && !Intact(z)
  {
    BeginsFresh(y, 10);
    assert [0] + [1] == [0, 1] && [FIRST] + [THIRD] == [FIRST, THIRD];
    var y1 := Next(y, 10, Begin(Allocate(0)));
    hide Step;
    assert y1 == System(TWO, ONE, [FIRST, THIRD], 1, 3, {1}, map[], TOLD);
    var y2 := Next(y1, 10, Rename(1));
    assert y2.waiting == map[2 := Issued(1, 0)] && y2.answered == TOLD;
    var z := Next(y2, 10, Answer(2));
    assert z.line == [FIRST, THIRD] && 1 in z.answered && !InLine(z.line, 1);
  }

  /** When an earlier snapshot overtakes a later one, the file falls back, and after a crash a
      second caller is told an index that is still live. */
  lemma OvertakingRename()
    ensures var y := After(10, [Begin(Allocate(0)), Begin(Allocate(0)), Rename(1), Rename(0),
                                Answer(1), Crash, Begin(Allocate(0)), Rename(1), Answer(2)]);
      y.answered == map[1 := Issued(1, 0), 2 := Issued(1, 0)] && !Intact(y)
  {
    hide Next, After;
    var alloc := Begin(Allocate(0));
    TwoBegun();
    var y := After(10, [alloc, alloc]);
    FellBack(y);
    var z := System(ONE, ONE, [FIRST], 1, 2, {}, map[], TOLD);
    ToldAgain(z);
    AfterSnoc(10, [alloc, alloc], Rename(1));
    assert [alloc, alloc] + [Rename(1)] == [alloc, alloc, Rename(1)];
    AfterSnoc(10, [alloc, alloc, Rename(1)], Rename(0));
    assert [alloc, alloc, Rename(1)] + [Rename(0)] == [alloc, alloc, Rename(1), Rename(0)];
    AfterSnoc(10, [alloc, alloc, Rename(1), Rename(0)], Answer(1));
    var e := [alloc, alloc, Rename(1), Rename(0), Answer(1)];
    assert [alloc, alloc, Rename(1), Rename(0)] + [Answer(1)] == e;
    AfterSnoc(10, e, Crash);
    assert After(10, e + [Crash]) == z;
    AfterSnoc(10, e + [Crash], alloc);
    AfterSnoc(10, e + [Crash] + [alloc], Rename(1));
    AfterSnoc(10, e + [Crash] + [alloc] + [Rename(1)], Answer(2));
    assert e + [Crash] + [alloc] + [Rename(1)] + [Answer(2)]
        == [alloc, alloc, Rename(1), Rename(0), Answer(1), Crash, alloc, Rename(1), Answer(2)];
  }
}
