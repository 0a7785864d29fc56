/** stableStringify and sameSignedPayload of server/crypto.ts:246-261.

    Text is a sequence of UTF-16 code units. A number is its shortest decimal text, so 0 and -0 are
    one number; a literal too large for a double, such as 1e999, parses to a non-finite number. */
module StableJson {
  import opened Prelude

  type Unit = n: int | 0 <= n < 0x1_0000
  type Text = seq<Unit>

  datatype Json =
    | Null
    | Bool(b: bool)
    | Number(text: Text)
    | NonFinite
    | Str(s: Text)
    | Array(items: Items)
    | Object(members: Members<Json>)

  datatype Items = NoItems | Item(head: Json, tail: Items)

  // The own properties of an object, in any order.
  datatype Members<T> = NoMembers | Member(key: Text, value: T, rest: Members<T>)

  // ----- keys

  // Array.prototype.sort compares keys by code units.
  predicate Less(a: Text, b: Text) {
    if b == [] then false
    else if a == [] then true
    else a[0] < b[0] || (a[0] == b[0] && Less(a[1..], b[1..]))
  }

  lemma {:induction false} LessTotal(a: Text, b: Text)
    ensures a == b || Less(a, b) || Less(b, a)
    ensures !(Less(a, b) && Less(b, a)) && !Less(a, a)
    decreases |a|
  {
    if a != [] {
      LessTotal(a[1..], a[1..]);
      if b != [] {
        LessTotal(a[1..], b[1..]);
        assert a == [a[0]] + a[1..] && b == [b[0]] + b[1..];
      }
    }
  }

  lemma {:induction false} LessTransitive(a: Text, b: Text, c: Text)
    requires Less(a, b) && Less(b, c)
    ensures Less(a, c)
  {
    if a != [] && a[0] == b[0] == c[0] { LessTransitive(a[1..], b[1..], c[1..]); }
  }

  function Keys<T>(ms: Members<T>): set<Text> {
    match ms
    case NoMembers => {}
    case Member(k, _, rest) => {k} + Keys(rest)
  }

  predicate DistinctKeys<T>(ms: Members<T>) {
    match ms
    case NoMembers => true
    case Member(k, _, rest) => k !in Keys(rest) && DistinctKeys(rest)
  }

  function Get<T>(ms: Members<T>, k: Text): (v: T)
    requires k in Keys(ms)
  {
    if ms.key == k then ms.value else Get(ms.rest, k)
  }

  // ----- sorting by key

  function Insert<T>(k: Text, v: T, ms: Members<T>): Members<T> {
    match ms
    case NoMembers => Member(k, v, NoMembers)
    case Member(k', v', rest) => if Less(k, k') then Member(k, v, ms) else Member(k', v', Insert(k, v, rest))
  }

  function Sort<T>(ms: Members<T>): Members<T> {
    match ms
    case NoMembers => NoMembers
    case Member(k, v, rest) => Insert(k, v, Sort(rest))
  }

  predicate Sorted<T>(ms: Members<T>) {
    match ms
    case NoMembers => true
    case Member(k, _, rest) => (forall j :: j in Keys(rest) ==> Less(k, j)) && Sorted(rest)
  }

  // The same keys with the same values.
  ghost predicate Agree<T(!new)>(ms: Members<T>, ns: Members<T>) {
    Keys(ms) == Keys(ns) && forall k :: k in Keys(ms) ==> Get(ms, k) == Get(ns, k)
  }

  lemma {:induction false} InsertKeeps<T(!new)>(k: Text, v: T, ms: Members<T>)
    requires k !in Keys(ms) && Sorted(ms)
    ensures Sorted(Insert(k, v, ms)) && Agree(Insert(k, v, ms), Member(k, v, ms))
  {
    match ms
    case NoMembers =>
    case Member(k', v', rest) =>
      LessTotal(k, k');
      if Less(k, k') {
        forall j | j in Keys(rest) ensures Less(k, j) { LessTransitive(k, k', j); }
      } else {
        InsertKeeps(k, v, rest);
      }
  }

  lemma {:induction false} SortKeeps<T(!new)>(ms: Members<T>)
    requires DistinctKeys(ms)
    ensures Sorted(Sort(ms)) && Agree(Sort(ms), ms)
  {
    match ms
    case NoMembers =>
    case Member(k, v, rest) =>
      SortKeeps(rest);
      InsertKeeps(k, v, Sort(rest));
  }

  // Sorted members are determined by what they map.
  lemma {:induction false} SortedUnique<T(!new)>(ms: Members<T>, ns: Members<T>)
    requires Sorted(ms) && Sorted(ns) && Agree(ms, ns)
    ensures ms == ns
  {
    match ms
    case NoMembers =>
    case Member(k, v, rest) =>
      assert k in Keys(ms);
      assert ns.Member?;
      assert ns.key in Keys(ms);
      LessTotal(k, ns.key);
      LessTotal(k, k);
      LessTotal(ns.key, ns.key);
      assert k == ns.key;
      assert Keys(rest) == Keys(ms) - {k} && Keys(ns.rest) == Keys(ns) - {k};
      forall j | j in Keys(rest) ensures Get(rest, j) == Get(ns.rest, j) {
        assert Get(ms, j) == Get(ns, j);
      }
      SortedUnique(rest, ns.rest);
  }

  // ----- string literals (JSON.stringify escapes a lone surrogate; RFC 8259 section 7)

  const QUOTE: Unit := 0x22
  const BACKSLASH: Unit := 0x5c
  const COMMA: Unit := 0x2c
  const COLON: Unit := 0x3a

  predicate High(u: Unit) { 0xd800 <= u < 0xdc00 }
  predicate Low(u: Unit) { 0xdc00 <= u < 0xe000 }

  // The letter after the backslash of a two-unit escape, or 0.
  function Short(u: Unit): (e: Unit)
    ensures e != 0x75
  {
    if u == QUOTE then QUOTE
    else if u == BACKSLASH then BACKSLASH
    else if u == 8 then 0x62
    else if u == 9 then 0x74
    else if u == 10 then 0x6e
    else if u == 12 then 0x66
    else if u == 13 then 0x72
    else 0
  }

  function HexDigit(d: nat): Unit
    requires d < 16
  {
    if d < 10 then 0x30 + d else 0x61 + (d - 10)
  }

  function Hex(u: Unit): Text {
    [HexDigit(u / 16 / 16 / 16), HexDigit(u / 16 / 16 % 16), HexDigit(u / 16 % 16), HexDigit(u % 16)]
  }

  // How many units the first element of s takes: a surrogate pair is one element.
  function Width(s: Text): (n: nat)
    requires s != []
    ensures 1 <= n <= 2 && n <= |s|
  {
    if High(s[0]) && |s| > 1 && Low(s[1]) then 2 else 1
  }

  predicate Escaped(u: Unit) {
    u < 0x20 || High(u) || Low(u)
  }

  function First(s: Text): Text
    requires s != []
  {
    if Width(s) == 2 then s[..2]
    else if Short(s[0]) != 0 then [BACKSLASH, Short(s[0])]
    else if Escaped(s[0]) then [BACKSLASH, 0x75] + Hex(s[0])
    else [s[0]]
  }

  function Escape(s: Text): Text {
    if s == [] then [] else First(s) + Escape(s[Width(s)..])
  }

  function Quoted(s: Text): Text {
    [QUOTE] + Escape(s) + [QUOTE]
  }

  // ----- printing

  predicate NumberUnit(u: Unit) {
    0x30 <= u <= 0x39 || u == 0x2b || u == 0x2d || u == 0x2e || u == 0x65
  }

  function Literal(v: Json): Text
    requires v.Null? || v.Bool? || v.NonFinite?
  {
    if v.Bool? then (if v.b then [0x74, 0x72, 0x75, 0x65] else [0x66, 0x61, 0x6c, 0x73, 0x65])
    else [0x6e, 0x75, 0x6c, 0x6c]
  }

  // Array.prototype.join(",") over "key":value texts.
  function Joined(ms: Members<Text>): Text {
    match ms
    case NoMembers => []
    case Member(k, t, rest) => Quoted(k) + [COLON] + t + JoinedRest(rest)
  }

  function JoinedRest(ms: Members<Text>): Text {
    match ms
    case NoMembers => []
    case Member(k, t, rest) => [COMMA] + (Quoted(k) + [COLON] + t) + JoinedRest(rest)
  }

  // stableStringify
  function Print(v: Json): Text
    decreases v
  {
    match v
    case Number(t) => t
    case Str(s) => Quoted(s)
    case Array(items) => [0x5b] + PrintItems(items) + [0x5d]
    case Object(ms) => [0x7b] + Joined(Sort(PrintMembers(ms))) + [0x7d]
    case _ => Literal(v)
  }

  function PrintItems(items: Items): Text
    decreases items
  {
    match items
    case NoItems => []
    case Item(h, t) => Print(h) + PrintRest(t)
  }

  function PrintRest(items: Items): Text
    decreases items
  {
    match items
    case NoItems => []
    case Item(h, t) => [COMMA] + Print(h) + PrintRest(t)
  }

  function PrintMembers(ms: Members<Json>): Members<Text>
    decreases ms
  {
    match ms
    case NoMembers => NoMembers
    case Member(k, v, rest) => Member(k, Print(v), PrintMembers(rest))
  }

  // ----- what a parser returns

  predicate Valid(v: Json)
    decreases v
  {
    match v
    case Number(t) => t != [] && forall i :: 0 <= i < |t| ==> NumberUnit(t[i])
    case Array(items) => ValidItems(items)
    case Object(ms) => DistinctKeys(ms) && ValidMembers(ms)
    case _ => true
  }

  predicate ValidItems(items: Items)
    decreases items
  {
    match items
    case NoItems => true
    case Item(h, t) => Valid(h) && ValidItems(t)
  }

  predicate ValidMembers(ms: Members<Json>)
    decreases ms
  {
    match ms
    case NoMembers => true
    case Member(_, v, rest) => Valid(v) && ValidMembers(rest)
  }

  // ----- equal up to key order at every depth

  predicate Equal(v: Json, w: Json)
    decreases v
  {
    match v
    case Array(items) => w.Array? && EqualItems(items, w.items)
    case Object(ms) => w.Object? && Keys(ms) == Keys(w.members) && EqualMembers(ms, w.members)
    case _ => v == w
  }

  predicate EqualItems(x: Items, y: Items)
    decreases x
  {
    match x
    case NoItems => y.NoItems?
    case Item(h, t) => y.Item? && Equal(h, y.head) && EqualItems(t, y.tail)
  }

  predicate EqualMembers(ms: Members<Json>, ns: Members<Json>)
    requires Keys(ms) <= Keys(ns)
    decreases ms
  {
    match ms
    case NoMembers => true
    case Member(k, v, rest) => Equal(v, Get(ns, k)) && EqualMembers(rest, ns)
  }

  // The value with a for every null and b for every non-finite number.
  function Replaced(v: Json, a: Json, b: Json): Json
    decreases v
  {
    match v
    case Null => a
    case NonFinite => b
    case Array(items) => Array(ReplacedItems(items, a, b))
    case Object(ms) => Object(ReplacedMembers(ms, a, b))
    case _ => v
  }

  function ReplacedItems(items: Items, a: Json, b: Json): Items
    decreases items
  {
    match items
    case NoItems => NoItems
    case Item(h, t) => Item(Replaced(h, a, b), ReplacedItems(t, a, b))
  }

  function ReplacedMembers(ms: Members<Json>, a: Json, b: Json): (ns: Members<Json>)
    ensures Keys(ns) == Keys(ms)
    decreases ms
  {
    match ms
    case NoMembers => NoMembers
    case Member(k, v, rest) => Member(k, Replaced(v, a, b), ReplacedMembers(rest, a, b))
  }

  // The value with null for every non-finite number.
  function Settled(v: Json): Json {
    Replaced(v, Null, Null)
  }

  function SettledItems(items: Items): Items {
    ReplacedItems(items, Null, Null)
  }

  function SettledMembers(ms: Members<Json>): Members<Json> {
    ReplacedMembers(ms, Null, Null)
  }

  // ----- literals of strings and numbers can be told apart and end where they end

  lemma Cancel(a: Text, x: Text, y: Text)
    requires a + x == a + y
    ensures x == y
  {
    assert (a + x)[|a|..] == x && (a + y)[|a|..] == y;
  }

  lemma HexUnique(u: Unit, w: Unit)
    requires Hex(u) == Hex(w)
    ensures u == w
  {
    hide HexDigit;
    HexDigitUnique(u / 16 / 16 / 16, w / 16 / 16 / 16);
    HexDigitUnique(u / 16 / 16 % 16, w / 16 / 16 % 16);
    HexDigitUnique(u / 16 % 16, w / 16 % 16);
    HexDigitUnique(u % 16, w % 16);
  }

  lemma HexDigitUnique(d: nat, e: nat)
    requires d < 16 && e < 16
    ensures HexDigit(d) == HexDigit(e) ==> d == e
  {
  }

  lemma FirstUnit(a: Text)
    requires a != []
    ensures var f := First(a);
      && (f != [] && (High(f[0]) <==> Width(a) == 2) && (f[0] == BACKSLASH <==> |f| > 1 && Width(a) == 1))
      && (f[0] == BACKSLASH ==> (f[1] == 0x75 <==> |f| == 6) && (|f| == 6 || |f| == 2))
  {
    hide Hex;
    assert |Hex(a[0])| == 4 by { HexLength(a[0]); }
  }

  lemma HexLength(u: Unit)
    ensures |Hex(u)| == 4
  {
  }

  // The element that the first units of a text stand for.
  lemma FirstUnique(a: Text, b: Text, x: Text, y: Text)
    requires a != [] && b != [] && First(a) + x == First(b) + y
    ensures Width(a) == Width(b) && a[..Width(a)] == b[..Width(b)] && x == y
  {
    hide Hex;
    var (f, g) := (First(a), First(b));
    var t := f + x;
    assert t == g + y;
    assert |f| > 0 && |g| > 0 && t[0] == f[0] == g[0];
    assert |f| > 1 ==> t[1] == f[1];
    assert |g| > 1 ==> t[1] == g[1];
    FirstUnit(a); FirstUnit(b);
    assert |f| == |g|;
    assert f == t[..|f|] == g;
    Cancel(f, x, y);
    if f[0] == BACKSLASH && f[1] == 0x75 {
      assert f[2..] == Hex(a[0]) && g[2..] == Hex(b[0]);
      HexUnique(a[0], b[0]);
    }
  }

  lemma FirstStarts(a: Text)
    requires a != []
    ensures First(a) != [] && First(a)[0] != QUOTE
  {
    hide Hex;
  }

  lemma {:induction false} EscapeUnique(a: Text, b: Text, x: Text, y: Text)
    requires Escape(a) + x == Escape(b) + y
    requires x != [] && x[0] == QUOTE && y != [] && y[0] == QUOTE
    ensures a == b && x == y
    decreases |a|
  {
    hide First, Width;
    var t := Escape(a) + x;
    if a != [] { FirstStarts(a); assert t[0] == First(a)[0]; }
    if b != [] { FirstStarts(b); assert t[0] == First(b)[0]; }
    if a != [] && b != [] {
      var (a', b') := (a[Width(a)..], b[Width(b)..]);
      assert First(a) + (Escape(a') + x) == t == First(b) + (Escape(b') + y);
      FirstUnique(a, b, Escape(a') + x, Escape(b') + y);
      EscapeUnique(a', b', x, y);
      assert a == a[..Width(a)] + a' && b == b[..Width(b)] + b';
    } else {
      assert a == b == [];
      assert t == x == y;
    }
  }

  lemma QuotedUnique(a: Text, b: Text, x: Text, y: Text)
    requires Quoted(a) + x == Quoted(b) + y
    ensures a == b && x == y
  {
    hide Escape;
    var t := Quoted(a) + x;
    assert t[1..] == Escape(a) + ([QUOTE] + x) && t[1..] == Escape(b) + ([QUOTE] + y);
    EscapeUnique(a, b, [QUOTE] + x, [QUOTE] + y);
    Cancel([QUOTE], x, y);
  }

  // A value is followed by the end of the text or by one of , ] }
  predicate Ends(r: Text) {
    r == [] || r[0] in {COMMA, 0x5d, 0x7d}
  }

  lemma NumberGoesOn(a: Text, b: Text, x: Text, y: Text)
    requires Valid(Number(b)) && Ends(x) && |a| < |b|
    ensures a + x != b + y
  {
    assert (b + y)[|a|] == b[|a|] && NumberUnit(b[|a|]);
    if x != [] { assert (a + x)[|a|] == x[0]; }
  }

  lemma NumberUnique(a: Text, b: Text, x: Text, y: Text)
    requires Valid(Number(a)) && Valid(Number(b)) && Ends(x) && Ends(y) && a + x == b + y
    ensures a == b && x == y
  {
    if |a| < |b| { NumberGoesOn(a, b, x, y); }
    if |b| < |a| { NumberGoesOn(b, a, y, x); }
    assert a == (a + x)[..|a|] && b == (b + y)[..|b|];
    Cancel(a, x, y);
  }

  // ----- the first unit tells the kind

  predicate Starts(v: Json, u: Unit) {
    match v
    case Number(_) => NumberUnit(u)
    case Str(_) => u == QUOTE
    case Array(_) => u == 0x5b
    case Object(_) => u == 0x7b
    case Bool(b) => u == if b then 0x74 else 0x66
    case _ => u == 0x6e
  }

  lemma PrintStarts(v: Json, x: Text)
    requires Valid(v)
    ensures Print(v) != [] && (Print(v) + x)[0] == Print(v)[0] && Starts(v, Print(v)[0])
  {
    hide Sort, PrintItems, Joined, Escape;
  }

  // ----- sizes, for the induction

  function Size(v: Json): nat
    decreases v
  {
    match v
    case Array(items) => 1 + SizeItems(items)
    case Object(ms) => 1 + SizeMembers(ms)
    case _ => 1
  }

  function SizeItems(items: Items): nat
    decreases items
  {
    match items
    case NoItems => 0
    case Item(h, t) => 1 + Size(h) + SizeItems(t)
  }

  function SizeMembers(ms: Members<Json>): nat
    decreases ms
  {
    match ms
    case NoMembers => 0
    case Member(_, v, rest) => 1 + Size(v) + SizeMembers(rest)
  }

  lemma {:induction false} GetOf(ms: Members<Json>, k: Text)
    requires k in Keys(ms) && ValidMembers(ms)
    ensures Size(Get(ms, k)) < SizeMembers(ms) && Valid(Get(ms, k))
  {
    hide Valid, Size;
    if ms.key != k { GetOf(ms.rest, k); }
  }

  // ----- members

  lemma {:induction false} PrintMembersMaps(ms: Members<Json>)
    ensures Keys(PrintMembers(ms)) == Keys(ms)
    ensures DistinctKeys(ms) ==> DistinctKeys(PrintMembers(ms))
    ensures forall k :: k in Keys(ms) ==> Get(PrintMembers(ms), k) == Print(Get(ms, k))
  {
    hide Print;
    match ms
    case NoMembers =>
    case Member(_, _, rest) => PrintMembersMaps(rest);
  }

  // The texts under the keys of an object, sorted.
  lemma SortedTexts(ms: Members<Json>) returns (ts: Members<Text>)
    requires DistinctKeys(ms)
    ensures ts == Sort(PrintMembers(ms)) && Sorted(ts) && Keys(ts) == Keys(ms)
    ensures forall k :: k in Keys(ts) ==> Get(ts, k) == Print(Get(ms, k))
  {
    hide Print, Sort;
    PrintMembersMaps(ms);
    SortKeeps(PrintMembers(ms));
    ts := Sort(PrintMembers(ms));
    forall k | k in Keys(ts) ensures Get(ts, k) == Print(Get(ms, k)) {
      assert Get(ts, k) == Get(PrintMembers(ms), k);
    }
  }

  lemma {:induction false} EqualMembersAll(ms: Members<Json>, ns: Members<Json>)
    requires DistinctKeys(ms) && Keys(ms) <= Keys(ns)
    ensures EqualMembers(ms, ns) <==> forall k :: k in Keys(ms) ==> Equal(Get(ms, k), Get(ns, k))
  {
    hide Equal;
    match ms
    case NoMembers =>
    case Member(k, v, rest) =>
      EqualMembersAll(rest, ns);
      assert Get(ms, k) == v;
      forall j | j in Keys(rest) ensures Get(ms, j) == Get(rest, j) { }
      assert k in Keys(ms);
      assert forall j :: j in Keys(ms) <==> j == k || j in Keys(rest);
  }

  // ----- equal values print alike

  lemma {:induction false} EqualPrints(v: Json, w: Json)
    requires Valid(v) && Valid(w) && Equal(v, w)
    ensures Print(v) == Print(w)
    decreases Size(v), 0
  {
    hide Sort, Joined;
    match v
    case Array(items) => EqualItemsPrint(items, w.items);
    case Object(ms) =>
      var ns := w.members;
      var (ts, us) := (Sort(PrintMembers(ms)), Sort(PrintMembers(ns)));
      var ts' := SortedTexts(ms);
      var us' := SortedTexts(ns);
      EqualMembersAll(ms, ns);
      forall k | k in Keys(ms) ensures Get(ts', k) == Get(us', k) {
        GetOf(ms, k);
        GetOf(ns, k);
        EqualPrints(Get(ms, k), Get(ns, k));
      }
      SortedUnique(ts', us');
    case _ =>
  }

  lemma {:induction false} EqualItemsPrint(x: Items, y: Items)
    requires ValidItems(x) && ValidItems(y) && EqualItems(x, y)
    ensures PrintItems(x) == PrintItems(y) && PrintRest(x) == PrintRest(y)
    decreases SizeItems(x), 0
  {
    hide Print, Equal;
    if x.Item? {
      EqualPrints(x.head, y.head);
      EqualItemsPrint(x.tail, y.tail);
    }
  }

  // ----- a printed text determines its value, null standing for non-finite numbers

  function Count<T>(ms: Members<T>): nat {
    match ms
    case NoMembers => 0
    case Member(_, _, rest) => 1 + Count(rest)
  }

  // Key and value of the first member.
  lemma FieldUnique(k: Text, t: Text, x: Text, j: Text, u: Text, y: Text)
    requires Quoted(k) + [COLON] + t + x == Quoted(j) + [COLON] + u + y
    ensures k == j && t + x == u + y
  {
    hide Quoted;
    assert Quoted(k) + [COLON] + t + x == Quoted(k) + ([COLON] + (t + x));
    assert Quoted(j) + [COLON] + u + y == Quoted(j) + ([COLON] + (u + y));
    QuotedUnique(k, j, [COLON] + (t + x), [COLON] + (u + y));
    Cancel([COLON], t + x, u + y);
  }

  lemma {:induction false} ReplacedGet(ms: Members<Json>, a: Json, b: Json, k: Text)
    requires k in Keys(ms)
    ensures Get(ReplacedMembers(ms, a, b), k) == Replaced(Get(ms, k), a, b)
  {
    hide Replaced;
    if ms.key != k { ReplacedGet(ms.rest, a, b, k); }
  }

  lemma {:induction false} ReplacedDistinct(ms: Members<Json>, a: Json, b: Json)
    ensures DistinctKeys(ms) ==> DistinctKeys(ReplacedMembers(ms, a, b))
  {
    match ms
    case NoMembers =>
    case Member(_, _, rest) => ReplacedDistinct(rest, a, b);
  }

  // The texts still to come are those of members of ms.
  ghost predicate TextsOf(ts: Members<Text>, ms: Members<Json>) {
    && Sorted(ts) && Keys(ts) <= Keys(ms)
    && forall k :: k in Keys(ts) ==> Get(ts, k) == Print(Get(ms, k))
  }

  lemma TextsTail(ts: Members<Text>, ms: Members<Json>)
    requires ts.Member? && TextsOf(ts, ms)
    ensures ts.value == Print(Get(ms, ts.key)) && TextsOf(ts.rest, ms)
  {
    hide Print, Less;
    LessTotal(ts.key, ts.key);
    assert ts.key in Keys(ts);
    forall k | k in Keys(ts.rest) ensures Get(ts.rest, k) == Print(Get(ms, k)) {
      assert Get(ts, k) == Get(ts.rest, k);
    }
  }

  // Equal at every key of the texts.
  ghost predicate AlikeAt<T>(ts: Members<T>, ms: Members<Json>, ns: Members<Json>)
    requires Keys(ts) <= Keys(ms) && Keys(ts) <= Keys(ns)
  {
    forall k :: k in Keys(ts) ==> Equal(Settled(Get(ms, k)), Settled(Get(ns, k)))
  }

  lemma {:induction false} MembersUnique(ts: Members<Text>, us: Members<Text>, ms: Members<Json>, ns: Members<Json>,
                                         x: Text, y: Text)
    requires ValidMembers(ms) && ValidMembers(ns) && TextsOf(ts, ms) && TextsOf(us, ns)
    requires JoinedRest(ts) + ([0x7d] + x) == JoinedRest(us) + ([0x7d] + y)
    ensures Keys(ts) == Keys(us) && AlikeAt(ts, ms, ns) && x == y
    decreases SizeMembers(ms), Count(ts)
  {
    hide Print, Equal, Replaced, TextsOf, Quoted, Sorted, Valid;
    var t := JoinedRest(ts) + ([0x7d] + x);
    RestEnds(ts, x); RestEnds(us, y);
    if ts.Member? && us.Member? {
      var (x', y') := (JoinedRest(ts.rest) + ([0x7d] + x), JoinedRest(us.rest) + ([0x7d] + y));
      assert t == [COMMA] + (Quoted(ts.key) + [COLON] + ts.value + x');
      assert t == [COMMA] + (Quoted(us.key) + [COLON] + us.value + y');
      Cancel([COMMA], Quoted(ts.key) + [COLON] + ts.value + x', Quoted(us.key) + [COLON] + us.value + y');
      RestEnds(ts.rest, x); RestEnds(us.rest, y);
      FirstMembersUnique(ts, us, ms, ns, x', y');
      TextsTail(ts, ms); TextsTail(us, ns);
      MembersUnique(ts.rest, us.rest, ms, ns, x, y);
    } else {
      assert t == [0x7d] + x == [0x7d] + y;
      Cancel([0x7d], x, y);
    }
  }

  lemma FirstMembersUnique(ts: Members<Text>, us: Members<Text>, ms: Members<Json>, ns: Members<Json>, x: Text, y: Text)
    requires ValidMembers(ms) && ValidMembers(ns)
    requires ts.Member? && us.Member? && TextsOf(ts, ms) && TextsOf(us, ns) && Ends(x) && Ends(y)
    requires Quoted(ts.key) + [COLON] + ts.value + x == Quoted(us.key) + [COLON] + us.value + y
    ensures ts.key == us.key && ts.key in Keys(ms) && ts.key in Keys(ns)
    ensures Equal(Settled(Get(ms, ts.key)), Settled(Get(ns, ts.key))) && x == y
    decreases SizeMembers(ms), 0
  {
    hide Print, Equal, Replaced, Quoted, Valid;
    var k := ts.key;
    FieldUnique(k, ts.value, x, us.key, us.value, y);
    assert k in Keys(ts) && k in Keys(us);
    TextsTail(ts, ms); TextsTail(us, ns);
    GetOf(ms, k); GetOf(ns, k);
    PrintUnique(Get(ms, k), Get(ns, k), x, y);
  }

  lemma ObjectUnique(ms: Members<Json>, ns: Members<Json>, x: Text, y: Text)
    requires Valid(Object(ms)) && Valid(Object(ns))
    requires Print(Object(ms)) + x == Print(Object(ns)) + y
    ensures Equal(Settled(Object(ms)), Settled(Object(ns))) && x == y
    decreases Size(Object(ms)), 0
  {
    hide Sort, Joined, PrintMembers, Quoted, Sorted, Equal, Replaced, EqualMembers, DistinctKeys, ValidMembers, Keys,
      Ends;
    var ts := SortedTexts(ms);
    var us := SortedTexts(ns);
    ObjectText(ms, x); ObjectText(ns, y);
    JoinedUnique(ts, us, ms, ns, x, y);
    ObjectsEqual(ms, ns);
  }

  lemma ObjectText(ms: Members<Json>, x: Text)
    ensures (Print(Object(ms)) + x)[1..] == Joined(Sort(PrintMembers(ms))) + ([0x7d] + x)
  {
    hide Joined, Sort, PrintMembers;
  }

  lemma ObjectsEqual(ms: Members<Json>, ns: Members<Json>)
    requires DistinctKeys(ms) && Keys(ms) == Keys(ns) && AlikeAt(ms, ms, ns)
    ensures Equal(Settled(Object(ms)), Settled(Object(ns)))
  {
    hide EqualMembers, ReplacedMembers, Keys, DistinctKeys;
    var (sm, sn) := (SettledMembers(ms), SettledMembers(ns));
    ReplacedDistinct(ms, Null, Null);
    EqualMembersAll(sm, sn);
    forall k | k in Keys(sm) ensures Equal(Get(sm, k), Get(sn, k)) {
      ReplacedGet(ms, Null, Null, k); ReplacedGet(ns, Null, Null, k);
    }
  }

  lemma JoinedUnique(ts: Members<Text>, us: Members<Text>, ms: Members<Json>, ns: Members<Json>, x: Text, y: Text)
    requires ValidMembers(ms) && ValidMembers(ns) && TextsOf(ts, ms) && TextsOf(us, ns)
    requires Joined(ts) + ([0x7d] + x) == Joined(us) + ([0x7d] + y)
    ensures Keys(ts) == Keys(us) && AlikeAt(ts, ms, ns) && x == y
    decreases SizeMembers(ms), Count(ts)
  {
    hide Print, Equal, Replaced, TextsOf, Sorted, Quoted, Valid, JoinedRest;
    var t := Joined(ts) + ([0x7d] + x);
    JoinedEnds(ts, x); JoinedEnds(us, y);
    if ts.Member? && us.Member? {
      var (x', y') := (JoinedRest(ts.rest) + ([0x7d] + x), JoinedRest(us.rest) + ([0x7d] + y));
      assert t == Quoted(ts.key) + [COLON] + ts.value + x';
      assert t == Quoted(us.key) + [COLON] + us.value + y';
      RestEnds(ts.rest, x); RestEnds(us.rest, y);
      FirstMembersUnique(ts, us, ms, ns, x', y');
      TextsTail(ts, ms); TextsTail(us, ns);
      MembersUnique(ts.rest, us.rest, ms, ns, x, y);
    } else {
      assert t == [0x7d] + x == [0x7d] + y;
      Cancel([0x7d], x, y);
    }
  }

  lemma QuotedStarts(k: Text)
    ensures Quoted(k) != [] && Quoted(k)[0] == QUOTE
  {
  }

  lemma RestEnds(ts: Members<Text>, x: Text)
    ensures Ends(JoinedRest(ts) + ([0x7d] + x))
    ensures (JoinedRest(ts) + ([0x7d] + x))[0] == if ts.Member? then COMMA else 0x7d
  {
    hide Quoted;
  }

  lemma JoinedEnds(ts: Members<Text>, x: Text)
    ensures (Joined(ts) + ([0x7d] + x))[0] == if ts.Member? then QUOTE else 0x7d
  {
    hide Quoted;
    if ts.Member? { QuotedStarts(ts.key); }
  }

  lemma {:induction false} ItemsRestUnique(a: Items, b: Items, x: Text, y: Text)
    requires ValidItems(a) && ValidItems(b)
    requires PrintRest(a) + ([0x5d] + x) == PrintRest(b) + ([0x5d] + y)
    ensures EqualItems(SettledItems(a), SettledItems(b)) && x == y
    decreases SizeItems(a), 0
  {
    hide Print, Equal, Replaced, Valid;
    var t := PrintRest(a) + ([0x5d] + x);
    ItemsEnd(a, x); ItemsEnd(b, y);
    if a.Item? && b.Item? {
      var (x', y') := (PrintRest(a.tail) + ([0x5d] + x), PrintRest(b.tail) + ([0x5d] + y));
      assert t == [COMMA] + (Print(a.head) + x') && t == [COMMA] + (Print(b.head) + y');
      Cancel([COMMA], Print(a.head) + x', Print(b.head) + y');
      ItemsEnd(a.tail, x); ItemsEnd(b.tail, y);
      PrintUnique(a.head, b.head, x', y');
      ItemsRestUnique(a.tail, b.tail, x, y);
    } else {
      assert t == [0x5d] + x == [0x5d] + y;
      Cancel([0x5d], x, y);
    }
  }

  lemma ArrayUnique(a: Items, b: Items, x: Text, y: Text)
    requires ValidItems(a) && ValidItems(b)
    requires PrintItems(a) + ([0x5d] + x) == PrintItems(b) + ([0x5d] + y)
    ensures EqualItems(SettledItems(a), SettledItems(b)) && x == y
    decreases SizeItems(a), 1
  {
    hide Print, Equal, Replaced, Valid;
    var t := PrintItems(a) + ([0x5d] + x);
    ItemsStart(a, x); ItemsStart(b, y);
    if a.Item? && b.Item? {
      var (x', y') := (PrintRest(a.tail) + ([0x5d] + x), PrintRest(b.tail) + ([0x5d] + y));
      assert t == Print(a.head) + x' && t == Print(b.head) + y';
      ItemsEnd(a.tail, x); ItemsEnd(b.tail, y);
      PrintUnique(a.head, b.head, x', y');
      ItemsRestUnique(a.tail, b.tail, x, y);
    } else {
      assert t == [0x5d] + x == [0x5d] + y;
      Cancel([0x5d], x, y);
    }
  }

  lemma ItemsEnd(a: Items, x: Text)
    ensures Ends(PrintRest(a) + ([0x5d] + x))
    ensures (PrintRest(a) + ([0x5d] + x))[0] == if a.Item? then COMMA else 0x5d
  {
    hide Print;
  }

  lemma ItemsStart(a: Items, x: Text)
    requires ValidItems(a)
    ensures (PrintItems(a) + ([0x5d] + x))[0] == 0x5d <==> a.NoItems?
  {
    hide Print;
    if a.Item? { PrintStarts(a.head, []); }
  }

  lemma ArrayText(a: Items, x: Text)
    ensures (Print(Array(a)) + x)[1..] == PrintItems(a) + ([0x5d] + x)
  {
    hide PrintItems;
  }

  lemma {:induction false} PrintUnique(v: Json, w: Json, x: Text, y: Text)
    requires Valid(v) && Valid(w) && Ends(x) && Ends(y) && Print(v) + x == Print(w) + y
    ensures Equal(Settled(v), Settled(w)) && x == y
    decreases Size(v), 1
  {
    PrintStarts(v, x); PrintStarts(w, y);
    SameKind(v, w, Print(v)[0]);
    hide Starts, Quoted, Sort, Joined, PrintItems, EqualItems, EqualMembers, ReplacedItems, ReplacedMembers;
    match v
    case Number(t) => NumberUnique(t, w.text, x, y);
    case Str(s) => QuotedUnique(s, w.s, x, y);
    case Array(a) =>
      ArrayText(a, x); ArrayText(w.items, y);
      ArrayUnique(a, w.items, x, y);
    case Object(ms) => ObjectUnique(ms, w.members, x, y);
    case Bool(_) => Cancel(Print(v), x, y);
    case _ => Cancel(Print(v), x, y);
  }

  lemma SameKind(v: Json, w: Json, u: Unit)
    requires Starts(v, u) && Starts(w, u)
    ensures v == w || (v.Number? && w.Number?) || (v.Str? && w.Str?) || (v.Array? && w.Array?)
         || (v.Object? && w.Object?)
         || (v in {Null, NonFinite} && w in {Null, NonFinite})
  {
  }

  // ----- the theorem

  // Two values print alike exactly when they are equal up to the order of keys at every depth, once
  // every non-finite number is read as null.
  lemma TextsAgreeIff(v: Json, w: Json)
    requires Valid(v) && Valid(w)
    ensures Print(v) == Print(w) <==> Equal(Settled(v), Settled(w))
  {
    hide Print, Replaced, Equal, Valid;
    ReplacedPrints(v, Null, Null); ReplacedPrints(w, Null, Null);
    if Equal(Settled(v), Settled(w)) { EqualPrints(Settled(v), Settled(w)); }
    if Print(v) == Print(w) {
      assert Print(v) + [] == Print(w) + [];
      PrintUnique(v, w, [], []);
    }
  }

  // Null and the non-finite numbers print alike.
  predicate PrintsNull(v: Json) {
    v == Null || v == NonFinite
  }

  lemma {:induction false} ReplacedPrints(v: Json, a: Json, b: Json)
    requires Valid(v) && PrintsNull(a) && PrintsNull(b)
    ensures Print(Replaced(v, a, b)) == Print(v) && Valid(Replaced(v, a, b))
    decreases v
  {
    hide Quoted, Sort, Joined;
    match v
    case Array(items) => ReplacedItemsPrint(items, a, b);
    case Object(ms) => ReplacedMembersPrint(ms, a, b); ReplacedDistinct(ms, a, b);
    case _ =>
  }

  lemma {:induction false} ReplacedItemsPrint(items: Items, a: Json, b: Json)
    requires ValidItems(items) && PrintsNull(a) && PrintsNull(b)
    ensures var x := ReplacedItems(items, a, b);
      PrintItems(x) == PrintItems(items) && PrintRest(x) == PrintRest(items) && ValidItems(x)
    decreases items
  {
    hide Print, Replaced, Valid;
    match items
    case NoItems =>
    case Item(h, t) => ReplacedPrints(h, a, b); ReplacedItemsPrint(t, a, b);
  }

  lemma {:induction false} ReplacedMembersPrint(ms: Members<Json>, a: Json, b: Json)
    requires ValidMembers(ms) && PrintsNull(a) && PrintsNull(b)
    ensures var ns := ReplacedMembers(ms, a, b); PrintMembers(ns) == PrintMembers(ms) && ValidMembers(ns)
    decreases ms
  {
    hide Print, Replaced, Valid;
    match ms
    case NoMembers =>
    case Member(_, v, rest) => ReplacedPrints(v, a, b); ReplacedMembersPrint(rest, a, b);
  }

  lemma {:induction false} EqualReplaced(v: Json, a: Json, b: Json)
    requires Valid(v) && PrintsNull(a) && PrintsNull(b)
    ensures Equal(v, Replaced(v, a, b)) <==> v == Replaced(v, a, b)
    decreases Size(v)
  {
    hide EqualMembers;
    match v
    case Array(items) => EqualReplacedItems(items, a, b);
    case Object(ms) =>
      var ns := ReplacedMembers(ms, a, b);
      forall k | k in Keys(ms) ensures Equal(Get(ms, k), Get(ns, k)) <==> Get(ms, k) == Replaced(Get(ms, k), a, b) {
        GetOf(ms, k);
        ReplacedGet(ms, a, b, k);
        EqualReplaced(Get(ms, k), a, b);
      }
      EqualMembersAll(ms, ns);
      ReplacedEverywhere(ms, a, b);
    case _ =>
  }

  lemma {:induction false} EqualReplacedItems(items: Items, a: Json, b: Json)
    requires ValidItems(items) && PrintsNull(a) && PrintsNull(b)
    ensures EqualItems(items, ReplacedItems(items, a, b)) <==> items == ReplacedItems(items, a, b)
    decreases SizeItems(items)
  {
    hide Equal, Replaced, Valid;
    match items
    case NoItems =>
    case Item(h, t) => EqualReplaced(h, a, b); EqualReplacedItems(t, a, b);
  }

  ghost predicate FixedAt(ms: Members<Json>, a: Json, b: Json) {
    forall k :: k in Keys(ms) ==> Get(ms, k) == Replaced(Get(ms, k), a, b)
  }

  lemma ReplacedEverywhere(ms: Members<Json>, a: Json, b: Json)
    requires DistinctKeys(ms)
    ensures ms == ReplacedMembers(ms, a, b) <==> FixedAt(ms, a, b)
  {
    if ms == ReplacedMembers(ms, a, b) {
      forall k | k in Keys(ms) ensures Get(ms, k) == Replaced(Get(ms, k), a, b) { ReplacedGet(ms, a, b, k); }
    }
    hide Replaced, ReplacedMembers, Get, DistinctKeys;
    if FixedAt(ms, a, b) { UnchangedEverywhere(ms, a, b); }
  }

  lemma {:induction false} UnchangedEverywhere(ms: Members<Json>, a: Json, b: Json)
    requires DistinctKeys(ms) && FixedAt(ms, a, b)
    ensures ms == ReplacedMembers(ms, a, b)
  {
    hide Replaced;
    match ms
    case NoMembers =>
    case Member(k, v, rest) =>
      assert k in Keys(ms) && Get(ms, k) == v;
      forall j | j in Keys(rest) ensures Get(rest, j) == Replaced(Get(rest, j), a, b) {
        assert j in Keys(ms) && Get(ms, j) == Get(rest, j);
      }
      UnchangedEverywhere(rest, a, b);
  }

  // ----- which values own their text

  // No null and no non-finite number at any depth.
  predicate Pure(v: Json)
    decreases v
  {
    match v
    case Null => false
    case NonFinite => false
    case Array(items) => PureItems(items)
    case Object(ms) => PureMembers(ms)
    case _ => true
  }

  predicate PureItems(items: Items)
    decreases items
  {
    match items
    case NoItems => true
    case Item(h, t) => Pure(h) && PureItems(t)
  }

  predicate PureMembers(ms: Members<Json>)
    decreases ms
  {
    match ms
    case NoMembers => true
    case Member(_, v, rest) => Pure(v) && PureMembers(rest)
  }

  // Swapping null and the non-finite numbers changes every other value.
  lemma {:induction false} PureUnchanged(v: Json)
    ensures v == Replaced(v, NonFinite, Null) <==> Pure(v)
    ensures Pure(v) ==> Settled(v) == v
    decreases v
  {
    match v
    case Array(items) => PureItemsUnchanged(items);
    case Object(ms) => PureMembersUnchanged(ms);
    case _ =>
  }

  lemma {:induction false} PureItemsUnchanged(items: Items)
    ensures items == ReplacedItems(items, NonFinite, Null) <==> PureItems(items)
    ensures PureItems(items) ==> SettledItems(items) == items
    decreases items
  {
    hide Replaced, Pure;
    match items
    case NoItems =>
    case Item(h, t) => PureUnchanged(h); PureItemsUnchanged(t);
  }

  lemma {:induction false} PureMembersUnchanged(ms: Members<Json>)
    ensures ms == ReplacedMembers(ms, NonFinite, Null) <==> PureMembers(ms)
    ensures PureMembers(ms) ==> SettledMembers(ms) == ms
    decreases ms
  {
    hide Replaced, Pure;
    match ms
    case NoMembers =>
    case Member(_, v, rest) => PureUnchanged(v); PureMembersUnchanged(rest);
  }

  lemma {:induction false} PureGet(ms: Members<Json>, k: Text)
    requires k in Keys(ms) && PureMembers(ms)
    ensures Pure(Get(ms, k))
  {
    hide Pure;
    if ms.key != k { PureGet(ms.rest, k); }
  }

  // A pure value that equals a settled one equals what was settled.
  lemma {:induction false} PureEqual(v: Json, w: Json)
    requires Valid(v) && Valid(w) && Pure(v) && Equal(v, Settled(w))
    ensures Equal(v, w)
    decreases Size(v)
  {
    hide EqualMembers, EqualItems, ReplacedItems, ReplacedMembers;
    match v
    case Array(items) => PureItemsEqual(items, w.items);
    case Object(ms) =>
      var ns := w.members;
      EqualMembersAll(ms, SettledMembers(ns));
      forall k | k in Keys(ms) ensures Equal(Get(ms, k), Get(ns, k)) {
        GetOf(ms, k); GetOf(ns, k);
        PureGet(ms, k);
        ReplacedGet(ns, Null, Null, k);
        PureEqual(Get(ms, k), Get(ns, k));
      }
      EqualMembersAll(ms, ns);
    case _ =>
  }

  lemma {:induction false} PureItemsEqual(x: Items, y: Items)
    requires ValidItems(x) && ValidItems(y) && PureItems(x) && EqualItems(x, SettledItems(y))
    ensures EqualItems(x, y)
    decreases SizeItems(x)
  {
    hide Equal, Replaced, Valid, Pure;
    if x.Item? {
      PureEqual(x.head, y.head);
      PureItemsEqual(x.tail, y.tail);
    }
  }

  // A value shares its text with no different value exactly when it holds neither null nor a
  // non-finite number, at any depth.
  lemma OwnsTextIff(v: Json)
    requires Valid(v)
    ensures (forall w :: Valid(w) && Print(w) == Print(v) ==> Equal(v, w)) <==> Pure(v)
  {
    hide Print, Equal, Valid, Replaced, Pure;
    PureUnchanged(v);
    if Pure(v) {
      forall w | Valid(w) && Print(w) == Print(v) ensures Equal(v, w) {
        TextsAgreeIff(v, w);
        PureEqual(v, w);
      }
    } else {
      var w := Replaced(v, NonFinite, Null);
      ReplacedPrints(v, NonFinite, Null);
      EqualReplaced(v, NonFinite, Null);
      assert Valid(w) && Print(w) == Print(v) && !Equal(v, w);
    }
  }

  // A value prints like its settled form, which differs from it exactly when it holds a non-finite number.
  lemma NonFiniteIsLost(v: Json)
    requires Valid(v)
    ensures Print(v) == Print(Settled(v))
    ensures Equal(v, Settled(v)) <==> v == Settled(v)
  {
    ReplacedPrints(v, Null, Null);
    EqualReplaced(v, Null, Null);
  }

  // ----- the comparison

  predicate Blank(u: Unit) {
    !High(u) && !Low(u) && IsSpace(u as char)
  }

  function TrimmedStart(t: Text): Text {
    if t != [] && Blank(t[0]) then TrimmedStart(t[1..]) else t
  }

  function TrimmedEnd(t: Text): Text {
    if t != [] && Blank(t[|t| - 1]) then TrimmedEnd(t[..|t| - 1]) else t
  }

  function Trimmed(t: Text): Text {
    TrimmedEnd(TrimmedStart(t))
  }

  predicate AllBlank(t: Text) {
    forall i :: 0 <= i < |t| ==> Blank(t[i])
  }

  lemma {:induction false} StartCut(t: Text) returns (i: nat)
    ensures i <= |t| && TrimmedStart(t) == t[i..] && AllBlank(t[..i]) && (i < |t| ==> !Blank(t[i]))
  {
    hide Blank;
    i := 0;
    if t != [] && Blank(t[0]) {
      var j := StartCut(t[1..]);
      i := j + 1;
      assert t[1..][j..] == t[i..] && t[..i] == [t[0]] + t[1..][..j];
    }
  }

  lemma {:induction false} EndCut(t: Text) returns (j: nat)
    ensures j <= |t| && TrimmedEnd(t) == t[..j] && AllBlank(t[j..]) && (j > 0 ==> !Blank(t[j - 1]))
  {
    hide Blank;
    j := |t|;
    if t != [] && Blank(t[|t| - 1]) {
      var n := |t| - 1;
      j := EndCut(t[..n]);
      assert t[..n][..j] == t[..j] && t[j..] == t[..n][j..] + [t[n]];
    }
  }

  // What is left starts and ends with no white space, and only white space was around it.
  lemma TrimmedIs(t: Text)
    ensures var r := Trimmed(t); r != [] ==> !Blank(r[0]) && !Blank(r[|r| - 1])
    ensures exists i, j :: 0 <= i <= j <= |t| && Trimmed(t) == t[i..j] && AllBlank(t[..i]) && AllBlank(t[j..])
  {
    hide Blank, TrimmedStart, TrimmedEnd;
    var i := StartCut(t);
    var j := EndCut(t[i..]);
    assert t[i..][..j] == t[i..i + j] && t[i..][j..] == t[i + j..];
    assert AllBlank(t[..i]) && AllBlank(t[i + j..]) && Trimmed(t) == t[i..i + j];
    if j > 0 { assert Trimmed(t)[0] == t[i] && Trimmed(t)[j - 1] == t[i..][j - 1]; }
  }

  type Parser = Text -> Option<Json>

  ghost predicate Parses(parse: Parser) {
    forall t :: parse(t).Some? ==> Valid(parse(t).value)
  }

  // sameSignedPayload
  predicate SamePayload(parse: Parser, signedText: Text, expected: Text) {
    var (a, b) := (Trimmed(signedText), Trimmed(expected));
    a == b || (parse(a).Some? && parse(b).Some? && Print(parse(a).value) == Print(parse(b).value))
  }

  // The same payload: the same text once trimmed, JSON or not, or equal values in another writing.
  lemma SamePayloadIff(parse: Parser, s: Text, t: Text)
    requires Parses(parse)
    ensures var (a, b) := (Trimmed(s), Trimmed(t));
      SamePayload(parse, s, t) <==>
        a == b || (parse(a).Some? && parse(b).Some? && Equal(Settled(parse(a).value), Settled(parse(b).value)))
  {
    hide Print, Equal, Replaced, Valid, Trimmed;
    var (a, b) := (Trimmed(s), Trimmed(t));
    if parse(a).Some? && parse(b).Some? { TextsAgreeIff(parse(a).value, parse(b).value); }
  }

  lemma SamePayloadIsEquivalence(parse: Parser, s: Text, t: Text, u: Text)
    ensures SamePayload(parse, s, s)
    ensures SamePayload(parse, s, t) ==> SamePayload(parse, t, s)
    ensures SamePayload(parse, s, t) && SamePayload(parse, t, u) ==> SamePayload(parse, s, u)
  {
    hide Print, Trimmed;
  }

  const NULL_TEXT: Text := [0x6e, 0x75, 0x6c, 0x6c]
  const HUGE_TEXT: Text := [0x31, 0x65, 0x39, 0x39, 0x39]
  const BRACE: Text := [0x7b]

  lemma NotBlank(t: Text)
    requires t != [] && !Blank(t[0]) && !Blank(t[|t| - 1])
    ensures Trimmed(t) == t
  {
  }

  // The payload 1e999 counts as the payload null.
  lemma HugeCountsAsNull(parse: Parser)
    requires parse(HUGE_TEXT) == Some(NonFinite) && parse(NULL_TEXT) == Some(Null)
    ensures SamePayload(parse, HUGE_TEXT, NULL_TEXT)
    ensures !Equal(parse(HUGE_TEXT).value, parse(NULL_TEXT).value)
  {
    NotBlank(HUGE_TEXT);
    NotBlank(NULL_TEXT);
  }

  // An opening brace alone, which is no JSON, counts as itself with a space in front.
  lemma BraceCountsAsItself(parse: Parser)
    requires parse(BRACE).None?
    ensures SamePayload(parse, BRACE, [0x20] + BRACE)
  {
    NotBlank(BRACE);
    var t := [0x20] + BRACE;
    assert t[1..] == BRACE;
    assert TrimmedStart(t) == TrimmedStart(BRACE);
  }
}
