/** The line framing of serve, gateway/gateway.mjs:198-217.

    Every chunk starts a handler, and all handlers of a connection share its buffer. A step is the
    code between two awaits: a chunk's arrival up to the first request it awaits, or one reply and
    what its handler does next. A handler is known by the request it waits on. Chunks are decoded
    text. How long a request takes is a parameter. */
module Framing {
  import opened Prelude

  const CAP := 64 * 1024

  // ----- lines of a text

  // The lines that have ended, and the text after the last of them.
  function Ended(s: string): seq<string>
    decreases |s|
  {
    var k := IndexOf(s, '\n');
    if k == |s| then [] else [s[..k]] + Ended(s[k + 1..])
  }

  function Unended(s: string): string
    decreases |s|
  {
    var k := IndexOf(s, '\n');
    if k == |s| then s else Unended(s[k + 1..])
  }

  lemma IndexOfAppend(s: string, t: string, c: char)
    ensures IndexOf(s + t, c) == if c in s then IndexOf(s, c) else |s| + IndexOf(t, c)
  {
    if s == "" {
      assert s + t == t;
    } else if s[0] != c {
      assert (s + t)[1..] == s[1..] + t;
      IndexOfAppend(s[1..], t, c);
      assert s == [s[0]] + s[1..];
    }
  }

  lemma FirstLine(s: string)
    ensures var k := IndexOf(s, '\n');
      if k == |s| then Ended(s) == [] && Unended(s) == s
      else Ended(s) == [s[..k]] + Ended(s[k + 1..]) && Unended(s) == Unended(s[k + 1..])
  {
    hide IndexOf;
  }

  // What a further chunk ends starts in what was not ended.
  lemma {:induction false} EndedAppend(s: string, t: string)
    ensures Ended(s + t) == Ended(s) + Ended(Unended(s) + t)
    ensures Unended(s + t) == Unended(Unended(s) + t)
    decreases |s|
  {
    hide IndexOf, Ended, Unended;
    var k := IndexOf(s, '\n');
    FirstLine(s);
    if k < |s| {
      IndexOfAppend(s, t, '\n');
      FirstLine(s + t);
      assert (s + t)[..k] == s[..k] && (s + t)[k + 1..] == s[k + 1..] + t;
      EndedAppend(s[k + 1..], t);
    }
  }

  // The lines that are requests.
  function Requests(lines: seq<string>): seq<string> {
    if lines == [] then []
    else
      var (init, last) := (lines[..|lines| - 1], lines[|lines| - 1]);
      if Trim(last) == "" then Requests(init) else Requests(init) + [last]
  }

  lemma {:induction false} RequestsAppend(a: seq<string>, b: seq<string>)
    ensures Requests(a + b) == Requests(a) + Requests(b)
  {
    if b == [] {
      assert a + b == a;
    } else {
      assert (a + b)[..|a + b| - 1] == a + b[..|b| - 1];
      RequestsAppend(a, b[..|b| - 1]);
    }
  }

  lemma OneRequest(line: string)
    ensures Requests([line]) == if Trim(line) == "" then [] else [line]
  {
    hide Trim;
    assert [line][..0] == [];
  }

  // Each line with its end.
  function Rejoined(lines: seq<string>): string {
    if lines == [] then "" else lines[0] + "\n" + Rejoined(lines[1..])
  }

  lemma RejoinedFirst(line: string, rest: seq<string>)
    ensures Rejoined([line] + rest) == line + "\n" + Rejoined(rest)
  {
    assert ([line] + rest)[1..] == rest;
  }

  lemma NoLines()
    ensures Rejoined([]) == ""
  {
  }

  // The ended lines, each with its end, and the rest are the text.
  lemma {:induction false} EndedIs(s: string)
    ensures Rejoined(Ended(s)) + Unended(s) == s && '\n' !in Unended(s)
    ensures forall i :: 0 <= i < |Ended(s)| ==> '\n' !in Ended(s)[i]
    decreases |s|
  {
    hide IndexOf, Ended, Unended, Rejoined;
    var k := IndexOf(s, '\n');
    FirstLine(s);
    if k < |s| {
      var (rest, tail) := (Ended(s[k + 1..]), Unended(s[k + 1..]));
      EndedIs(s[k + 1..]);
      RejoinedFirst(s[..k], rest);
      assert s == s[..k] + "\n" + s[k + 1..];
      assert s[..k] + "\n" + Rejoined(rest) + tail == s[..k] + "\n" + (Rejoined(rest) + tail);
    } else {
      assert s[..k] == s && Rejoined([]) == "" && "" + s == s by { NoLines(); }
    }
  }

  lemma {:induction false} RequestsAre(lines: seq<string>, line: string)
    ensures line in Requests(lines) <==> line in lines && Trim(line) != ""
  {
    hide Trim;
    if lines != [] { RequestsAre(lines[..|lines| - 1], line); }
  }

  // ----- the connection

  datatype Connection = Connection(
    received: string,
    buf: string,
    handled: seq<string>,
    waiting: set<nat>,
    replies: seq<nat>,
    destroyed: bool
  )

  const OPENED := Connection("", "", [], {}, [], false)

  // A line that is no JSON is answered in the step that reads it. A request whose handler awaits
  // nothing from outside is answered before the next chunk, any other at any later time.
  datatype Pace = AtOnce | Promptly | Later

  type Paces = string -> Pace

  // The loop of a handler up to its next request.
  function Take(buf: string): (r: (Option<string>, string))
    ensures r.0.Some? ==> |r.1| < |buf|
    decreases |buf|
  {
    var k := IndexOf(buf, '\n');
    if k == |buf| then (None, buf)
    else if Trim(buf[..k]) == "" then Take(buf[k + 1..])
    else (Some(buf[..k]), buf[k + 1..])
  }

  method TakeRequest(start: string) returns (line: Option<string>, buf: string)
    ensures (line, buf) == Take(start)
  {
    hide Trim, IndexOf;
    buf := start;
    var nl := IndexOf(buf, '\n');
    while nl < |buf|
      invariant nl == IndexOf(buf, '\n') && Take(buf) == Take(start)
      decreases |buf|
    {
      var text := buf[..nl];
      buf := buf[nl + 1..];
      if Trim(text) != "" { return Some(text), buf; }
      nl := IndexOf(buf, '\n');
    }
    line := None;
  }

  // A handler's loop up to the first request it awaits.
  function Proceed(paces: Paces, c: Connection): Connection
    decreases |c.buf|
  {
    var (line, rest) := Take(c.buf);
    if line.None? then c.(buf := rest)
    else
      var d := c.(buf := rest, handled := c.handled + [line.value]);
      if paces(line.value).AtOnce? then Proceed(paces, d.(replies := c.replies + [|c.handled|]))
      else d.(waiting := c.waiting + {|c.handled|})
  }

  method ProceedLoop(paces: Paces, start: Connection) returns (c: Connection)
    ensures c == Proceed(paces, start)
  {
    hide Take;
    c := start;
    while true
      invariant Proceed(paces, c) == Proceed(paces, start)
      decreases |c.buf|
    {
      var line, rest := TakeRequest(c.buf);
      if line.None? { return c.(buf := rest); }
      var request := |c.handled|;
      var atOnce := paces(line.value).AtOnce?;
      if atOnce {
        c := c.(buf := rest, handled := c.handled + [line.value], replies := c.replies + [request]);
      } else {
        return c.(buf := rest, handled := c.handled + [line.value], waiting := c.waiting + {request});
      }
    }
  }

  datatype Event = Data(chunk: string) | Reply(request: nat)

  predicate Enabled(paces: Paces, c: Connection, e: Event) {
    match e
    case Data(_) =>
      !c.destroyed && forall i :: i in c.waiting && i < |c.handled| ==> !paces(c.handled[i]).Promptly?
    case Reply(i) => i in c.waiting
  }

  function Apply(paces: Paces, c: Connection, e: Event): Connection
    requires Enabled(paces, c, e)
  {
    match e
    case Data(chunk) =>
      var d := c.(received := c.received + chunk, buf := c.buf + chunk);
      if |d.buf| > CAP then d.(destroyed := true) else Proceed(paces, d)
    case Reply(i) => Proceed(paces, c.(waiting := c.waiting - {i}, replies := c.replies + [i]))
  }

  predicate Possible(paces: Paces, c: Connection, es: seq<Event>)
    decreases es
  {
    es == [] || (Enabled(paces, c, es[0]) && Possible(paces, Apply(paces, c, es[0]), es[1..]))
  }

  function Run(paces: Paces, c: Connection, es: seq<Event>): Connection
    requires Possible(paces, c, es)
    decreases es
  {
    if es == [] then c else Run(paces, Apply(paces, c, es[0]), es[1..])
  }

  // ----- what every step keeps

  ghost predicate InOrder(c: Connection) {
    && c.handled + Requests(Ended(c.buf)) == Requests(Ended(c.received))
    && Unended(c.buf) == Unended(c.received)
    && ('\n' in c.buf ==> c.waiting != {} || c.destroyed)
  }

  ghost predicate OneReplyEach(c: Connection) {
    && (forall i :: i in c.waiting || i in c.replies <==> 0 <= i < |c.handled|)
    && (forall i :: i in c.waiting ==> i !in c.replies)
    && Distinct(c.replies)
  }

  lemma {:induction false} TakeFirst(buf: string)
    ensures var (line, rest) := Take(buf);
      && Requests(Ended(buf)) == (if line.Some? then [line.value] else []) + Requests(Ended(rest))
      && Unended(rest) == Unended(buf)
      && (line.None? ==> '\n' !in rest)
    decreases |buf|
  {
    hide Trim, IndexOf, Ended, Unended, Requests;
    var k := IndexOf(buf, '\n');
    FirstLine(buf);
    if k < |buf| {
      RequestsAppend([buf[..k]], Ended(buf[k + 1..]));
      OneRequest(buf[..k]);
      if Trim(buf[..k]) == "" { TakeFirst(buf[k + 1..]); }
    }
  }

  // One more line handled, and answered or awaited.
  lemma HandledKeeps(c: Connection, line: string)
    requires OneReplyEach(c)
    ensures OneReplyEach(c.(handled := c.handled + [line], replies := c.replies + [|c.handled|]))
    ensures OneReplyEach(c.(handled := c.handled + [line], waiting := c.waiting + {|c.handled|}))
  {
  }

  lemma {:induction false} ProceedKeeps(paces: Paces, c: Connection)
    requires c.handled + Requests(Ended(c.buf)) == Requests(Ended(c.received)) && Unended(c.buf) == Unended(c.received)
    ensures var d := Proceed(paces, c); InOrder(d) && (OneReplyEach(c) ==> OneReplyEach(d))
    decreases |c.buf|
  {
    hide Take, Ended, Unended, Requests;
    TakeFirst(c.buf);
    var (line, rest) := Take(c.buf);
    if line.Some? {
      var handled := c.handled + [line.value];
      assert c.handled + ([line.value] + Requests(Ended(rest))) == handled + Requests(Ended(rest));
      if OneReplyEach(c) { HandledKeeps(c, line.value); }
      if paces(line.value).AtOnce? {
        ProceedKeeps(paces, c.(buf := rest, handled := handled, replies := c.replies + [|c.handled|]));
      }
    }
  }

  lemma ChunkKeeps(c: Connection, chunk: string)
    requires InOrder(c)
    ensures c.handled + Requests(Ended(c.buf + chunk)) == Requests(Ended(c.received + chunk))
    ensures Unended(c.buf + chunk) == Unended(c.received + chunk)
  {
    hide Requests, Ended, Unended;
    EndedAppend(c.buf, chunk);
    EndedAppend(c.received, chunk);
    RequestsAppend(Ended(c.buf), Ended(Unended(c.buf) + chunk));
    RequestsAppend(Ended(c.received), Ended(Unended(c.received) + chunk));
  }

  lemma StepKeeps(paces: Paces, c: Connection, e: Event)
    requires InOrder(c) && OneReplyEach(c) && Enabled(paces, c, e)
    ensures InOrder(Apply(paces, c, e)) && OneReplyEach(Apply(paces, c, e))
  {
    hide Requests, Ended, Unended, Proceed;
    match e
    case Data(chunk) =>
      ChunkKeeps(c, chunk);
      ProceedKeeps(paces, c.(received := c.received + chunk, buf := c.buf + chunk));
    case Reply(i) =>
      ReplyKeeps(c, i);
      ProceedKeeps(paces, c.(waiting := c.waiting - {i}, replies := c.replies + [i]));
  }

  lemma ReplyKeeps(c: Connection, i: nat)
    requires OneReplyEach(c) && i in c.waiting
    ensures OneReplyEach(c.(waiting := c.waiting - {i}, replies := c.replies + [i]))
  {
  }

  lemma {:induction false} RunKeeps(paces: Paces, c: Connection, es: seq<Event>)
    requires InOrder(c) && OneReplyEach(c) && Possible(paces, c, es)
    ensures InOrder(Run(paces, c, es)) && OneReplyEach(Run(paces, c, es))
    decreases es
  {
    hide InOrder, OneReplyEach, Apply, Enabled;
    if es != [] {
      StepKeeps(paces, c, es[0]);
      RunKeeps(paces, Apply(paces, c, es[0]), es[1..]);
    }
  }

  // However the text is cut into chunks and however the handlers interleave, the requests are
  // handled in the order of their lines, none twice; once nothing is awaited on a live connection,
  // exactly the ended lines have been handled and each has had its one reply.
  lemma HandledOnce(paces: Paces, es: seq<Event>)
    requires Possible(paces, OPENED, es)
    ensures var c := Run(paces, OPENED, es);
      && c.handled <= Requests(Ended(c.received))
      && Distinct(c.replies) && (forall i :: i in c.replies ==> i < |c.handled|)
      && (c.waiting == {} && !c.destroyed ==>
            && c.handled == Requests(Ended(c.received)) && c.buf == Unended(c.received)
            && forall i :: 0 <= i < |c.handled| ==> i in c.replies)
  {
    hide Run, Possible;
    RunKeeps(paces, OPENED, es);
    var c := Run(paces, OPENED, es);
    assert c.handled == (c.handled + Requests(Ended(c.buf)))[..|c.handled|];
    if c.waiting == {} && !c.destroyed { assert Ended(c.buf) == []; }
  }

  lemma {:induction false} TakeShrinks(buf: string)
    ensures |Take(buf).1| <= |buf|
    decreases |buf|
  {
    hide Trim, IndexOf;
    var k := IndexOf(buf, '\n');
    if k < |buf| && Trim(buf[..k]) == "" { TakeShrinks(buf[k + 1..]); }
  }

  lemma {:induction false} ProceedShrinks(paces: Paces, c: Connection)
    ensures |Proceed(paces, c).buf| <= |c.buf| && Proceed(paces, c).destroyed == c.destroyed
    decreases |c.buf|
  {
    hide Take;
    TakeShrinks(c.buf);
    var (line, rest) := Take(c.buf);
    if line.Some? && paces(line.value).AtOnce? {
      ProceedShrinks(paces, c.(buf := rest, handled := c.handled + [line.value],
                               replies := c.replies + [|c.handled|]));
    }
  }

  // A chunk destroys the connection exactly when the buffer would pass 65536 characters.
  lemma DestroyedIff(paces: Paces, c: Connection, chunk: string)
    requires Enabled(paces, c, Data(chunk))
    ensures Apply(paces, c, Data(chunk)).destroyed <==> |c.buf| + |chunk| > 65536
  {
    hide Proceed;
    ProceedShrinks(paces, c.(received := c.received + chunk, buf := c.buf + chunk));
  }

  lemma StepBounded(paces: Paces, c: Connection, e: Event)
    requires Enabled(paces, c, e) && (!c.destroyed ==> |c.buf| <= 65536)
    ensures var d := Apply(paces, c, e); !d.destroyed ==> |d.buf| <= 65536
  {
    hide Proceed;
    match e
    case Data(chunk) => ProceedShrinks(paces, c.(received := c.received + chunk, buf := c.buf + chunk));
    case Reply(i) => ProceedShrinks(paces, c.(waiting := c.waiting - {i}, replies := c.replies + [i]));
  }

  /** So the buffer of a live connection never passes that. */
  lemma {:induction false} BufferBounded(paces: Paces, c: Connection, es: seq<Event>)
    requires Possible(paces, c, es) && (!c.destroyed ==> |c.buf| <= 65536)
    ensures var d := Run(paces, c, es); !d.destroyed ==> |d.buf| <= 65536
    decreases es
  {
    hide Apply, Enabled;
    if es != [] {
      StepBounded(paces, c, es[0]);
      BufferBounded(paces, Apply(paces, c, es[0]), es[1..]);
    }
  }

  // ----- the order of replies

  function UpTo(n: nat): (s: seq<nat>)
    ensures |s| == n
  {
    seq(n, i => i)
  }

  lemma UpToNext(n: nat)
    ensures UpTo(n) + [n] == UpTo(n + 1)
  {
  }

  // The chunk starts no second request while one is awaited.
  predicate Harmless(c: Connection, chunk: string) {
    c.waiting == {} || |c.buf + chunk| > CAP || Take(c.buf + chunk).0.None?
  }

  // A client that ends no further request while it waits; it may send blank lines and parts of lines.
  predicate Waits(paces: Paces, c: Connection, es: seq<Event>)
    requires Possible(paces, c, es)
    decreases es
  {
    es == [] || ((es[0].Data? ==> Harmless(c, es[0].chunk)) && Waits(paces, Apply(paces, c, es[0]), es[1..]))
  }

  // All requests but perhaps the last are answered, in their order.
  ghost predicate Answering(c: Connection) {
    AllAnswered(c) || AwaitsLast(c)
  }

  ghost predicate AllAnswered(c: Connection) {
    c.waiting == {} && c.replies == UpTo(|c.handled|)
  }

  ghost predicate AwaitsLast(c: Connection) {
    |c.handled| > 0 && c.waiting == {|c.handled| - 1} && c.replies == UpTo(|c.handled| - 1)
  }

  ghost predicate RepliedInOrder(c: Connection) {
    c.replies == UpTo(|c.replies|)
  }

  lemma {:induction false} ProceedAnswering(paces: Paces, c: Connection)
    requires AllAnswered(c)
    ensures Answering(Proceed(paces, c))
    decreases |c.buf|
  {
    hide Take, UpTo;
    var (line, rest) := Take(c.buf);
    if line.Some? && paces(line.value).AtOnce? {
      UpToNext(|c.handled|);
      ProceedAnswering(paces, c.(buf := rest, handled := c.handled + [line.value],
                                 replies := c.replies + [|c.handled|]));
    }
  }

  lemma StepAnswering(paces: Paces, c: Connection, e: Event)
    requires Answering(c) && Enabled(paces, c, e) && (e.Data? ==> Harmless(c, e.chunk))
    ensures Answering(Apply(paces, c, e))
  {
    hide Take, UpTo;
    match e
    case Data(chunk) =>
      var d := c.(received := c.received + chunk, buf := c.buf + chunk);
      if c.waiting == {} { ProceedAnswering(paces, d); }
    case Reply(i) =>
      UpToNext(|c.handled| - 1);
      ProceedAnswering(paces, c.(waiting := c.waiting - {i}, replies := c.replies + [i]));
  }

  lemma {:induction false} RepliesInOrder(paces: Paces, c: Connection, es: seq<Event>)
    requires Answering(c) && Possible(paces, c, es) && Waits(paces, c, es)
    ensures Answering(Run(paces, c, es)) && RepliedInOrder(Run(paces, c, es))
    decreases es
  {
    hide Take, Harmless, Apply, Enabled, AllAnswered, AwaitsLast;
    if es != [] {
      StepAnswering(paces, c, es[0]);
      RepliesInOrder(paces, Apply(paces, c, es[0]), es[1..]);
    } else {
      AnsweringInOrder(c);
    }
  }

  lemma AnsweringInOrder(c: Connection)
    requires Answering(c)
    ensures RepliedInOrder(c)
  {
  }

  /** A chunk is followed by replies in order, whatever a waiting client and the handlers do next,
      if and only if it starts no second request while one is awaited. */
  lemma InOrderIff(paces: Paces, c: Connection, chunk: string)
    requires Answering(c) && Enabled(paces, c, Data(chunk))
    ensures var d := Apply(paces, c, Data(chunk));
      (forall es :: Possible(paces, d, es) && Waits(paces, d, es) ==> RepliedInOrder(Run(paces, d, es)))
      <==> Harmless(c, chunk)
  {
    hide Take, Apply, Waits, Run, Possible, Harmless, Enabled;
    var d := Apply(paces, c, Data(chunk));
    if Harmless(c, chunk) {
      StepAnswering(paces, c, Data(chunk));
      forall es | Possible(paces, d, es) && Waits(paces, d, es) ensures RepliedInOrder(Run(paces, d, es)) {
        RepliesInOrder(paces, d, es);
      }
    } else {
      var es := Overtakes(paces, c, chunk);
      assert Possible(paces, d, es) && Waits(paces, d, es) && !RepliedInOrder(Run(paces, d, es));
    }
  }

  lemma {:induction false} ProceedReplies(paces: Paces, c: Connection)
    ensures c.replies <= Proceed(paces, c).replies
    decreases |c.buf|
  {
    hide Take;
    var (line, rest) := Take(c.buf);
    if line.Some? && paces(line.value).AtOnce? {
      ProceedReplies(paces, c.(buf := rest, handled := c.handled + [line.value],
                               replies := c.replies + [|c.handled|]));
    }
  }

  // The second request is answered at once, or may be answered first.
  lemma Overtakes(paces: Paces, c: Connection, chunk: string) returns (es: seq<Event>)
    requires Answering(c) && Enabled(paces, c, Data(chunk)) && !Harmless(c, chunk)
    ensures var d := Apply(paces, c, Data(chunk));
      Possible(paces, d, es) && Waits(paces, d, es) && !RepliedInOrder(Run(paces, d, es))
  {
    hide Take;
    var (n, d) := (|c.handled|, Apply(paces, c, Data(chunk)));
    var (line, rest) := Take(c.buf + chunk);
    if paces(line.value).AtOnce? {
      es := [];
      ProceedReplies(paces, Connection(c.received + chunk, rest, c.handled + [line.value], c.waiting,
                                       c.replies + [n], false));
      Swapped(d, c.replies, n);
    } else {
      es := [Reply(n)];
      assert es[1..] == [];
      var r := Apply(paces, d, Reply(n));
      assert Run(paces, d, es) == r;
      ProceedReplies(paces, d.(waiting := d.waiting - {n}, replies := c.replies + [n]));
      Swapped(r, c.replies, n);
    }
  }

  lemma Swapped(c: Connection, before: seq<nat>, n: nat)
    requires n > 0 && |before| == n - 1 && before + [n] <= c.replies
    ensures !RepliedInOrder(c)
  {
    assert c.replies[n - 1] == (before + [n])[n - 1] == n;
  }

  // ----- two requests in two chunks

  // What a client has sent.
  function Sent(es: seq<Event>): seq<string> {
    if es == [] then [] else (if es[0].Data? then [es[0].chunk] else []) + Sent(es[1..])
  }

  // Some run in which just these two lines are sent answers the second first.
  ghost predicate MaySwap(paces: Paces, a: string, b: string) {
    exists es ::
      && Possible(paces, OPENED, es) && Sent(es) == [a + "\n", b + "\n"]
      && Run(paces, OPENED, es).replies == [1, 0]
  }

  predicate OneLine(a: string) {
    '\n' !in a && Trim(a) != "" && |a| < CAP
  }

  /** Replies carry no name, so a client that does not wait may mistake them: exactly when the
      first line is a request whose handler awaits something from outside. */
  lemma RepliesOutOfOrderIff(paces: Paces, a: string, b: string)
    requires OneLine(a) && OneLine(b)
    ensures MaySwap(paces, a, b) <==> paces(a).Later?
  {
    hide OneLine, Possible, Sent, Run;
    if paces(a).Later? {
      var es := RepliesOutOfOrder(paces, a, b);
    } else {
      forall es | Possible(paces, OPENED, es) && Sent(es) == [a + "\n", b + "\n"]
        ensures Run(paces, OPENED, es).replies != [1, 0]
      {
        FirstStays(paces, a, b, es);
      }
    }
  }

  // Such a run, whatever the second line is.
  lemma RepliesOutOfOrder(paces: Paces, a: string, b: string) returns (es: seq<Event>)
    requires OneLine(a) && OneLine(b) && paces(a).Later?
    ensures Possible(paces, OPENED, es) && Sent(es) == [a + "\n", b + "\n"]
    ensures Run(paces, OPENED, es).handled == [a, b] && Run(paces, OPENED, es).replies == [1, 0]
  {
    hide Proceed, Apply, Possible, Run, Sent, OneLine;
    var (first, second) := (Data(a + "\n"), Data(b + "\n"));
    LineComes(paces, OPENED, a);
    var c1 := Apply(paces, OPENED, first);
    LineComes(paces, c1, b);
    var c2 := Apply(paces, c1, second);
    var last := if paces(b).AtOnce? then [Reply(0)] else [Reply(1)] + [Reply(0)];
    RepliesLast(paces, c2, 0) by { assert c2.waiting == if paces(b).AtOnce? then {0} else {0, 1}; }
    OneEvent(paces, c2, Reply(0));
    if !paces(b).AtOnce? {
      RepliesLast(paces, c2, 1);
      var c3 := Apply(paces, c2, Reply(1));
      RepliesLast(paces, c3, 0);
      OneEvent(paces, c3, Reply(0));
      EventFirst(paces, c2, Reply(1), [Reply(0)]);
    }
    EventFirst(paces, c1, second, last);
    EventFirst(paces, OPENED, first, [second] + last);
    es := [first] + ([second] + last);
  }

  lemma EventFirst(paces: Paces, c: Connection, e: Event, es: seq<Event>)
    requires Enabled(paces, c, e) && Possible(paces, Apply(paces, c, e), es)
    ensures Possible(paces, c, [e] + es) && Run(paces, c, [e] + es) == Run(paces, Apply(paces, c, e), es)
    ensures Sent([e] + es) == (if e.Data? then [e.chunk] else []) + Sent(es)
  {
    hide Enabled, Apply;
    assert ([e] + es)[1..] == es;
  }

  lemma OneEvent(paces: Paces, c: Connection, e: Event)
    requires Enabled(paces, c, e)
    ensures Possible(paces, c, [e]) && Run(paces, c, [e]) == Apply(paces, c, e)
    ensures Sent([e]) == if e.Data? then [e.chunk] else []
  {
    hide Enabled, Apply;
    assert [e][1..] == [];
  }

  // A handler with nothing left to read.
  lemma NothingLeft(paces: Paces, c: Connection)
    requires c.buf == ""
    ensures Proceed(paces, c) == c
  {
    hide Take;
    TakeNothing();
  }

  // A line comes whole, over an empty buffer.
  lemma LineComes(paces: Paces, c: Connection, a: string)
    requires OneLine(a) && c.buf == "" && Enabled(paces, c, Data(a + "\n"))
    ensures Apply(paces, c, Data(a + "\n")) ==
      var d := c.(received := c.received + (a + "\n"), handled := c.handled + [a]);
      if paces(a).AtOnce? then d.(replies := c.replies + [|c.handled|]) else d.(waiting := c.waiting + {|c.handled|})
  {
    hide Take, Trim;
    TakeLine(a);
    assert "" + (a + "\n") == a + "\n";
    var d := c.(received := c.received + (a + "\n"), handled := c.handled + [a]);
    NothingLeft(paces, d.(replies := c.replies + [|c.handled|]));
  }

  lemma RepliesLast(paces: Paces, c: Connection, i: nat)
    requires c.buf == "" && i in c.waiting
    ensures Apply(paces, c, Reply(i)) == c.(waiting := c.waiting - {i}, replies := c.replies + [i])
  {
    hide Proceed;
    NothingLeft(paces, c.(waiting := c.waiting - {i}, replies := c.replies + [i]));
  }

  lemma {:induction false} RepliesGrow(paces: Paces, c: Connection, es: seq<Event>)
    requires Possible(paces, c, es)
    ensures c.replies <= Run(paces, c, es).replies
    decreases es
  {
    hide Apply, Enabled;
    if es != [] {
      StepReplies(paces, c, es[0]);
      RepliesGrow(paces, Apply(paces, c, es[0]), es[1..]);
    }
  }

  lemma StepReplies(paces: Paces, c: Connection, e: Event)
    requires Enabled(paces, c, e)
    ensures c.replies <= Apply(paces, c, e).replies
  {
    hide Proceed;
    match e
    case Data(chunk) => ProceedReplies(paces, c.(received := c.received + chunk, buf := c.buf + chunk));
    case Reply(i) => ProceedReplies(paces, c.(waiting := c.waiting - {i}, replies := c.replies + [i]));
  }

  // A first line that is answered at once, or before the second comes, has the first reply.
  lemma FirstStays(paces: Paces, a: string, b: string, es: seq<Event>)
    requires OneLine(a) && !paces(a).Later?
    requires Possible(paces, OPENED, es) && Sent(es) == [a + "\n", b + "\n"]
    ensures Run(paces, OPENED, es).replies != [1, 0]
  {
    hide Proceed, OneLine, Apply, Run;
    assert es != [] && Enabled(paces, OPENED, es[0]);
    assert es[0] == Data(a + "\n") by { assert Sent(es)[0] == a + "\n"; }
    LineComes(paces, OPENED, a);
    var (c1, rest) := (Apply(paces, OPENED, es[0]), es[1..]);
    assert Possible(paces, c1, rest) && Run(paces, OPENED, es) == Run(paces, c1, rest) by {
      RunFirst(paces, OPENED, es);
    }
    if paces(a).AtOnce? {
      assert c1.replies == [0];
      RepliesGrow(paces, c1, rest);
      assert Run(paces, c1, rest).replies[0] == c1.replies[0];
    } else {
      assert Sent(es)[1..] == Sent(rest);
      assert rest != [] && rest[0] == Reply(0);
      RunFirst(paces, c1, rest);
      RepliesLast(paces, c1, 0);
      var c2 := Apply(paces, c1, Reply(0));
      RepliesGrow(paces, c2, rest[1..]);
      assert Run(paces, c2, rest[1..]).replies[0] == c2.replies[0];
    }
  }

  lemma RunFirst(paces: Paces, c: Connection, es: seq<Event>)
    requires es != [] && Possible(paces, c, es)
    ensures Enabled(paces, c, es[0]) && Possible(paces, Apply(paces, c, es[0]), es[1..])
    ensures Run(paces, c, es) == Run(paces, Apply(paces, c, es[0]), es[1..])
  {
    hide Enabled, Apply;
  }

  lemma TakeLine(a: string)
    requires OneLine(a)
    ensures Take(a + "\n") == (Some(a), "")
  {
    hide Trim, IndexOf;
    IndexOfAppend(a, "\n", '\n');
    assert "\n"[0] == '\n' && IndexOf("\n", '\n') == 0;
    assert (a + "\n")[..|a|] == a && (a + "\n")[|a| + 1..] == "";
  }

  lemma TakeNothing()
    ensures Take("") == (None, "")
  {
  }
}
