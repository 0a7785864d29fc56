/** qrPolynomial and the error-correction half of createBytes, assets/js/qrcode.js:287-300, 966-972,
    1182-1245. Logarithms of zero throw in the source and make these methods return None. */
module ReedSolomon {
  import opened Prelude
  import opened GF256
  import opened Polynomials
  import opened Generator

  // `shift` leaves that many array holes at the end; in an exclusive or they act as zero.
  datatype Poly = Poly(num: Coeffs, holes: nat) {
    function Cells(): Coeffs { num + Zeros(holes) }

    function Length(): nat { |num| + holes }
  }

  function Strip(s: Coeffs): (t: Coeffs)
    ensures |t| <= |s|
    ensures t == [] || t[0] != 0
    ensures s != [] && s[0] == 0 ==> |t| < |s|
  {
    if s != [] && s[0] == 0 then Strip(s[1..]) else s
  }

  lemma {:induction false} StripSplit(s: Coeffs)
    ensures s == Zeros(|s| - |Strip(s)|) + Strip(s)
  {
    if s != [] && s[0] == 0 {
      StripSplit(s[1..]);
      assert s == [0] + s[1..];
      assert Zeros(|s| - |Strip(s)|) == [0] + Zeros(|s| - 1 - |Strip(s)|);
    }
  }

  lemma StripEval(s: Coeffs, holes: nat, x: bv8)
    ensures Eval(Strip(s) + Zeros(holes), x) == Eval(s + Zeros(holes), x)
  {
    hide Eval;
    var k := |s| - |Strip(s)|;
    StripSplit(s);
    EvalLeadingZeros(k, Strip(s) + Zeros(holes), x);
    assert s + Zeros(holes) == Zeros(k) + (Strip(s) + Zeros(holes));
  }

  // The constructor qrPolynomial(num, shift).
  method MakePoly(num: Coeffs, shift: nat) returns (p: Poly)
    ensures p == Poly(Strip(num), shift)
  {
    var offset := 0;
    while offset < |num| && num[offset] == 0
      invariant offset <= |num|
      invariant Strip(num[offset..]) == Strip(num)
    {
      assert num[offset..][1..] == num[offset + 1..];
      offset := offset + 1;
    }
    p := Poly(num[offset..], shift);
  }

  // ----- multiplication

  // a times e added in from position i on.
  ghost function AddedRow(s: Coeffs, i: nat, a: bv8, e: Coeffs): (t: Coeffs)
    requires i + |e| <= |s|
    ensures |t| == |s|
  {
    Add(s, Zeros(i) + Scale(a, e) + Zeros(|s| - i - |e|))
  }

  // The inner loop of multiply, and the loop of mod: None when a logarithm of zero is asked for.
  method AddRow(math: QRMath, was: Coeffs, i: nat, a: bv8, e: Coeffs) returns (r: Option<Coeffs>)
    requires math.Valid() && e != [] && i + |e| <= |was|
    ensures r == if a != 0 && AllNonzero(e) then Some(AddedRow(was, i, a, e)) else None
  {
    hide Mul, Xor, Shift;
    var num := was;
    var j := 0;
    while j < |e|
      invariant j <= |e| && |num| == |was|
      invariant forall k :: 0 <= k < j ==> a != 0 && e[k] != 0
      invariant forall k :: 0 <= k < |was| ==>
                  num[k] == if i <= k < i + j then Xor(was[k], Mul(a, e[k - i])) else was[k]
    {
      var la := math.Glog(a);
      var le := math.Glog(e[j]);
      if la == None || le == None { return None; }
      var v := math.Gexp(la.value + le.value);
      MulByLogs(a, e[j]);
      num := num[i + j := Xor(num[i + j], v)];
      j := j + 1;
    }
    assert e[0] != 0;
    RowIs(was, num, i, a, e);
    return Some(num);
  }

  lemma RowIs(was: Coeffs, num: Coeffs, i: nat, a: bv8, e: Coeffs)
    requires i + |e| <= |was| == |num|
    requires forall k :: 0 <= k < |was| ==>
               num[k] == if i <= k < i + |e| then Xor(was[k], Mul(a, e[k - i])) else was[k]
    ensures num == AddedRow(was, i, a, e)
  {
    hide Mul, Xor;
    var row := Zeros(i) + Scale(a, e) + Zeros(|was| - i - |e|);
    forall k | 0 <= k < |was| ensures num[k] == Xor(was[k], row[k]) {
      XorLaws(was[k], 0, 0);
      assert row[k] == if i <= k < i + |e| then Mul(a, e[k - i]) else 0;
    }
    assert num == Add(was, row);
  }

  lemma MulByLogs(a: bv8, b: bv8)
    requires a != 0 && b != 0
    ensures Mul(a, b) == Exp((Log(a) + Log(b)) % 255)
  {
    hide Shift;
    ExpPeriodic(Log(a) + Log(b));
  }

  method Multiply(math: QRMath, p: Coeffs, e: Coeffs) returns (r: Option<Poly>)
    requires math.Valid() && p != [] && e != []
    ensures r == if AllNonzero(p) && AllNonzero(e) then Some(Poly(Strip(Product(p, e)), 0)) else None
  {
    hide Mul, Xor, Shift;
    var num := Zeros(|p| + |e| - 1);
    var i := 0;
    assert Product(p[..0], e) + Zeros(|p|) == num;
    while i < |p|
      invariant i <= |p|
      invariant forall k :: 0 <= k < i ==> p[k] != 0 && AllNonzero(e)
      invariant num == Product(p[..i], e) + Zeros(|p| - i)
    {
      var row := AddRow(math, num, i, p[i], e);
      if row == None { return None; }
      ProductRow(p, e, i);
      num := row.value;
      i := i + 1;
    }
    assert p[..|p|] == p && Product(p, e) + Zeros(0) == Product(p, e);
    var q := MakePoly(num, 0);
    return Some(q);
  }

  lemma ProductRow(p: Coeffs, e: Coeffs, i: nat)
    requires i < |p| && e != []
    ensures AddedRow(Product(p[..i], e) + Zeros(|p| - i), i, p[i], e) == Product(p[..i + 1], e) + Zeros(|p| - i - 1)
  {
    hide Mul, Xor;
    XorLaws(0, 0, 0);
    assert p[..i + 1][..i] == p[..i];
    var rest := |p| - i - 1;
    var (s, t) := (Product(p[..i], e) + [0], Zeros(i) + Scale(p[i], e));
    assert Product(p[..i + 1], e) == Add(s, t);
    assert Product(p[..i], e) + Zeros(|p| - i) == s + Zeros(rest);
    assert AddedRow(s + Zeros(rest), i, p[i], e) == Add(s + Zeros(rest), t + Zeros(rest));
    assert Add(s + Zeros(rest), t + Zeros(rest)) == Add(s, t) + Zeros(rest);
  }

  /** The generator is built without ever asking for the logarithm of zero exactly for lengths up
      to 255, and then it is the product of the linear factors. */
  method ErrorCorrectPolynomial(math: QRMath, n: nat) returns (r: Option<Poly>)
    requires math.Valid()
    ensures r == if n <= 255 then Some(Poly(Gen(n), 0)) else None
  {
    hide Mul, Xor, Shift;
    var a := MakePoly([1], 0);
    var i := 0;
    while i < n
      invariant i <= n && i <= 255
      invariant a == Poly(Gen(i), 0)
    {
      var x := math.Gexp(i);
      ExpPeriodic(i);
      var f := MakePoly([1, x], 0);
      var b := Multiply(math, a.num, f.num);
      LogsExistIff(i);
      ExpNonzero(i);
      assert AllNonzero([1, x]);
      if b == None { return None; }
      assert i < 255;
      LeadingOne(i + 1);
      a := b.value;
      i := i + 1;
    }
    return Some(a);
  }

  // ----- division

  ghost predicate SameAtRoots(s: Coeffs, t: Coeffs, e: Coeffs) {
    forall x :: Eval(e, x) == 0 ==> Eval(s, x) == Eval(t, x)
  }

  /** The recursive remainder terminates below the divisor's length and agrees with the dividend at
      every root of the divisor; it throws exactly when a step is needed and the divisor has a
      zero coefficient. */
  method Mod(math: QRMath, p: Poly, e: Coeffs) returns (r: Option<Poly>)
    requires math.Valid() && e != [] && e[0] != 0
    requires p.holes < |e| && (p.num == [] || p.num[0] != 0)
    ensures r.Some? <==> p.Length() < |e| || AllNonzero(e)
    ensures r.Some? ==> r.value.Length() < |e| && SameAtRoots(r.value.Cells(), p.Cells(), e)
    decreases p.Length()
  {
    hide Mul, Xor, Shift, Eval;
    if p.Length() < |e| { return Some(p); }
    var lp := math.Glog(p.num[0]);
    var le := math.Glog(e[0]);
    var ratio := lp.value - le.value;
    var row := SubtractMultiple(math, p.Cells(), ratio, e);
    if row == None { return None; }
    ReductionStep(p.Cells(), row.value, p.num[0], e);
    // The first |e| cells are numbers now; holes remain only behind them.
    var numbers := if |p.num| < |e| then |e| else |p.num|;
    var holes := p.Length() - numbers;
    assert row.value[numbers..] == Zeros(holes);
    assert row.value == row.value[..numbers] + Zeros(holes);
    var q := MakePoly(row.value[..numbers], holes);
    forall x ensures Eval(q.Cells(), x) == Eval(row.value, x) { StripEval(row.value[..numbers], holes, x); }
    r := Mod(math, q, e);
  }

  // num[i] ^= gexp(glog(e[i]) + ratio)
  method SubtractMultiple(math: QRMath, was: Coeffs, ratio: int, e: Coeffs) returns (r: Option<Coeffs>)
    requires math.Valid() && e != [] && |e| <= |was|
    ensures r.Some? <==> AllNonzero(e)
    ensures r.Some? ==> |r.value| == |was| && forall k :: 0 <= k < |was| ==>
              r.value[k] == if k < |e| then Xor(was[k], Exp((Log(e[k]) + ratio) % 255)) else was[k]
  {
    hide Mul, Xor, Shift;
    var num := was;
    var i := 0;
    while i < |e|
      invariant i <= |e| && |num| == |was|
      invariant forall k :: 0 <= k < i ==> e[k] != 0
      invariant forall k :: 0 <= k < |was| ==>
                  num[k] == if k < i then Xor(was[k], Exp((Log(e[k]) + ratio) % 255)) else was[k]
    {
      var l := math.Glog(e[i]);
      if l == None { return None; }
      var v := math.Gexp(l.value + ratio);
      num := num[i := Xor(num[i], v)];
      i := i + 1;
    }
    return Some(num);
  }

  // One step clears the leading cell and adds a multiple of e, so it changes nothing at e's roots.
  lemma ReductionStep(was: Coeffs, now: Coeffs, lead: bv8, e: Coeffs)
    requires e != [] && AllNonzero(e) && |e| <= |was| == |now| && was[0] == lead != 0
    requires forall k :: 0 <= k < |was| ==>
               now[k] == if k < |e| then Xor(was[k], Exp((Log(e[k]) + (Log(lead) - Log(e[0]))) % 255)) else was[k]
    ensures now[0] == 0
    ensures SameAtRoots(now, was, e)
  {
    hide Mul, Xor, Shift, Eval;
    var c := Exp((Log(lead) - Log(e[0])) % 255);
    forall k | 0 <= k < |e| ensures Exp((Log(e[k]) + (Log(lead) - Log(e[0]))) % 255) == Mul(c, e[k]) {
      RatioIsProduct(e[k], lead, e[0]);
      MulCommutes(c, e[k]);
      assert Log(e[k]) + (Log(lead) - Log(e[0])) == Log(e[k]) + Log(lead) - Log(e[0]);
    }
    RatioIsProduct(e[0], lead, e[0]);
    MulCommutes(c, e[0]);
    XorLaws(lead, lead, 0);
    var rest := |was| - |e|;
    var row := Scale(c, e) + Zeros(rest);
    forall k | 0 <= k < |was| ensures now[k] == Add(was, row)[k] { XorLaws(was[k], 0, 0); }
    assert now == Add(was, row);
    forall x | Eval(e, x) == 0 ensures Eval(now, x) == Eval(was, x) {
      EvalAdd(was, row, x);
      EvalScale(c, e, x);
      MulZero(c, 0);
      EvalTrailingZeros(Scale(c, e), rest, x);
      XorLaws(Eval(was, x), 0, 0);
    }
  }

  // ----- one block's error-correction codewords

  // The data followed by its check codewords vanishes at a^0 .. a^(n-1).
  ghost predicate IsCodeword(w: Coeffs, n: nat) {
    forall i: nat :: i < n ==> Eval(w, Exp(i)) == 0
  }

  /** The loop body of createBytes for one block. The codewords appended make a multiple of the
      generator. It fails only outside the field's reach: above 255 always, and at 255 unless
      every data codeword is zero. */
  method ErrorCorrection(math: QRMath, dc: Coeffs, ecCount: nat) returns (r: Option<Coeffs>)
    requires math.Valid()
    ensures r.Some? <==> ecCount <= 254 || (ecCount == 255 && Strip(dc) == [])
    ensures r.Some? ==> |r.value| == ecCount && IsCodeword(dc + r.value, ecCount)
  {
    hide Mul, Xor, Shift, Eval;
    var g := ErrorCorrectPolynomial(math, ecCount);
    if g == None { return None; }
    var rsPoly := g.value.num;
    LeadingOne(ecCount);
    LogsExistIff(ecCount);
    var rawPoly := MakePoly(dc, |rsPoly| - 1);
    var m := Mod(math, rawPoly, rsPoly);
    if m == None { return None; }
    var modPoly := m.value;
    var ec := CheckCells(modPoly, ecCount);
    AppendedIsCodeword(dc, ec, rawPoly, modPoly, ecCount);
    return Some(ec);
  }

  method CheckCells(modPoly: Poly, n: nat) returns (ec: Coeffs)
    ensures |ec| == n && forall k :: 0 <= k < n ==> ec[k] == CellFromEnd(modPoly, n, k)
  {
    ec := [];
    var i := 0;
    while i < n
      invariant i == |ec| <= n
      invariant forall k :: 0 <= k < i ==> ec[k] == CellFromEnd(modPoly, n, k)
    {
      ec := ec + [CellFromEnd(modPoly, n, i)];
      i := i + 1;
    }
  }

  // modIndex >= 0 ? modPoly.getAt(modIndex) : 0, a hole counting as zero
  function CellFromEnd(p: Poly, n: nat, i: nat): bv8
    requires i < n
  {
    var modIndex := i + p.Length() - n;
    if modIndex < 0 || modIndex >= |p.num| then 0 else p.num[modIndex]
  }

  lemma AppendedIsCodeword(dc: Coeffs, ec: Coeffs, raw: Poly, rem: Poly, n: nat)
    requires raw == Poly(Strip(dc), n) && rem.Length() <= n == |ec|
    requires SameAtRoots(rem.Cells(), raw.Cells(), Gen(n))
    requires forall k :: 0 <= k < n ==> ec[k] == CellFromEnd(rem, n, k)
    ensures IsCodeword(dc + ec, n)
  {
    hide Mul, Xor, Shift, Eval;
    assert ec == Zeros(n - rem.Length()) + rem.Cells();
    forall i: nat | i < n ensures Eval(dc + ec, Exp(i)) == 0 {
      var x := Exp(i);
      GenRoot(n, i);
      StripEval(dc, n, x);
      assert Eval(rem.Cells(), x) == Eval(raw.Cells(), x);
      EvalLeadingZeros(n - rem.Length(), rem.Cells(), x);
      EvalAppended(dc, ec, x);
      XorLaws(Eval(ec, x), Eval(ec, x), 0);
    }
  }

  lemma EvalAppended(s: Coeffs, t: Coeffs, x: bv8)
    ensures Eval(s + t, x) == Xor(Eval(s + Zeros(|t|), x), Eval(t, x))
  {
    hide Mul, Xor, Eval;
    var (hi, lo) := (s + Zeros(|t|), Zeros(|s|) + t);
    forall k | 0 <= k < |s| + |t| ensures (s + t)[k] == Add(hi, lo)[k] { XorLaws((s + t)[k], 0, 0); }
    assert s + t == Add(hi, lo);
    EvalAdd(hi, lo, x);
    EvalLeadingZeros(|s|, t, x);
  }

  /** No other codewords would do: what ErrorCorrection appends is the only completion of the data
      to a multiple of the generator, so the method's promise determines its result. */
  lemma CompletionIsUnique(dc: Coeffs, ec1: Coeffs, ec2: Coeffs)
    requires |ec1| == |ec2| <= 255
    requires IsCodeword(dc + ec1, |ec1|) && IsCodeword(dc + ec2, |ec2|)
    ensures ec1 == ec2
  {
    hide Mul, Xor, Shift, Eval;
    var n := |ec1|;
    var d := Add(ec1, ec2);
    var roots := seq(n, i requires 0 <= i < n => Exp(i));
    forall i, j | 0 <= i < j < n ensures roots[i] != roots[j] {
      if roots[i] == roots[j] { ExpInjective(i, j); }
    }
    forall i | 0 <= i < n ensures Eval(d, roots[i]) == 0 {
      var x := roots[i];
      EvalAdd(dc + ec1, dc + ec2, x);
      forall k | 0 <= k < |dc| + n ensures Add(dc + ec1, dc + ec2)[k] == (Zeros(|dc|) + d)[k] {
        if k < |dc| { XorLaws(dc[k], dc[k], 0); }
      }
      assert Add(dc + ec1, dc + ec2) == Zeros(|dc|) + d;
      EvalLeadingZeros(|dc|, d, x);
      XorLaws(0, 0, 0);
    }
    TooManyRoots(d, roots);
    forall k | 0 <= k < n ensures ec1[k] == ec2[k] { XorLaws(ec1[k], ec2[k], 0); }
  }
}
