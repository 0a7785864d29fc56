/** Datatypes and sequence facts shared by the other modules. */
module Prelude {

  datatype Option<+T> = None | Some(value: T)

  datatype Result<+T, +E> = Ok(value: T) | Err(error: E)

  type Octet = n: nat | n < 256

  // The position of the first occurrence of x, or |s| when there is none.
  function IndexOf<T(==)>(s: seq<T>, x: T): (k: nat)
    ensures k <= |s|
    ensures k < |s| ==> s[k] == x
    ensures x !in s[..k]
    ensures k < |s| <==> x in s
  {
    if s == [] then 0
    else if s[0] == x then 0
    else
      assert s == [s[0]] + s[1..];
      assert s[..1 + IndexOf(s[1..], x)] == [s[0]] + s[1..][..IndexOf(s[1..], x)];
      1 + IndexOf(s[1..], x)
  }

  // s without its k-th element.
  function Splice<T>(s: seq<T>, k: nat): seq<T>
    requires k < |s|
  {
    s[..k] + s[k + 1..]
  }

  ghost predicate Distinct<T>(s: seq<T>) {
    forall i, j :: 0 <= i < j < |s| ==> s[i] != s[j]
  }

  lemma SpliceDistinct<T>(s: seq<T>, k: nat)
    requires Distinct(s) && k < |s|
    ensures Distinct(Splice(s, k))
    ensures forall x :: x in Splice(s, k) <==> x in s && x != s[k]
  {
    var t := Splice(s, k);
    forall x ensures x in t <==> x in s && x != s[k] {
      if x in s && x != s[k] {
        var i :| 0 <= i < |s| && s[i] == x;
        assert t[if i < k then i else i - 1] == x;
      }
    }
  }

  // ----- text

  // The characters String.prototype.trim removes and \s matches.
  predicate IsSpace(c: char) {
    || c in {'\t', '\n', '\U{0B}', '\U{0C}', '\r', ' ', '\U{A0}', '\U{1680}', '\U{2028}', '\U{2029}',
             '\U{202F}', '\U{205F}', '\U{3000}', '\U{FEFF}'}
    || '\U{2000}' <= c <= '\U{200A}'
  }

  function TrimStart(s: string): (t: string)
    ensures |t| <= |s|
    ensures t != "" ==> !IsSpace(t[0])
  {
    if s != "" && IsSpace(s[0]) then TrimStart(s[1..]) else s
  }

  function TrimEnd(s: string): (t: string)
    ensures |t| <= |s|
  {
    if s != "" && IsSpace(s[|s| - 1]) then TrimEnd(s[..|s| - 1]) else s
  }

  function Trim(s: string): (t: string)
    ensures |t| <= |s|
  {
    TrimEnd(TrimStart(s))
  }

  predicate AllSpace(s: string) {
    forall i :: 0 <= i < |s| ==> IsSpace(s[i])
  }

  lemma {:induction false} TrimStartCuts(s: string) returns (i: nat)
    ensures i <= |s| && TrimStart(s) == s[i..] && AllSpace(s[..i])
  {
    hide IsSpace;
    i := 0;
    if s != "" && IsSpace(s[0]) {
      var j := TrimStartCuts(s[1..]);
      i := j + 1;
      assert s[1..][j..] == s[i..] && s[..i] == [s[0]] + s[1..][..j];
    }
  }

  lemma {:induction false} TrimEndCuts(s: string) returns (j: nat)
    ensures j <= |s| && TrimEnd(s) == s[..j] && AllSpace(s[j..])
    ensures j > 0 ==> !IsSpace(s[j - 1])
  {
    hide IsSpace;
    j := |s|;
    if s != "" && IsSpace(s[|s| - 1]) {
      var n := |s| - 1;
      j := TrimEndCuts(s[..n]);
      assert s[..n][..j] == s[..j] && s[j..] == s[..n][j..] + [s[n]];
    }
  }

  /** What is left starts and ends with no space, and only spaces were around it. */
  lemma TrimIs(s: string)
    ensures var t := Trim(s); t != "" ==> !IsSpace(t[0]) && !IsSpace(t[|t| - 1])
    ensures exists i, j :: 0 <= i <= j <= |s| && Trim(s) == s[i..j] && AllSpace(s[..i]) && AllSpace(s[j..])
  {
    hide IsSpace, TrimStart, TrimEnd;
    var i := TrimStartCuts(s);
    var j := TrimEndCuts(s[i..]);
    assert s[i..][..j] == s[i..i + j] && s[i..][j..] == s[i + j..];
    assert AllSpace(s[..i]) && AllSpace(s[i + j..]) && Trim(s) == s[i..i + j];
    if j > 0 { assert Trim(s)[0] == TrimStart(s)[0] && Trim(s)[j - 1] == s[i..][j - 1]; }
  }
}
