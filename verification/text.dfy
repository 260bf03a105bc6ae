/**
 * The Python string built-ins the backend relies on: `str()` of a scalar,
 * `",".join(...)` and its inverse `split(",")`, and `str.strip(...)`.
 */
module Text {
  import opened Values

  // ---------------------------------------------------------------- str(int)

  predicate IsDigit(c: char) { '0' <= c <= '9' }

  predicate AllDigits(s: string)
  {
    forall k :: 0 <= k < |s| ==> IsDigit(s[k])
  }

  function Digit(d: nat): (c: char)
    requires d < 10
    ensures IsDigit(c)
  {
    ['0', '1', '2', '3', '4', '5', '6', '7', '8', '9'][d]
  }

  function DigitValue(c: char): nat
    requires IsDigit(c)
  {
    (c as int - '0' as int) as nat
  }

  /** Decimal digits of `n`, most significant first, with no leading zero. */
  function NatToString(n: nat): (s: string)
    ensures s != [] && AllDigits(s)
    ensures |s| > 1 ==> s[0] != '0'
  {
    if n < 10 then [Digit(n)]
    else
      var t := NatToString(n / 10);
      assert forall k :: 0 <= k < |t| ==> (t + [Digit(n % 10)])[k] == t[k];
      t + [Digit(n % 10)]
  }

  /** Python's `str(i)` for an int. */
  function IntToString(i: int): (s: string)
    ensures s != [] && ',' !in s
  {
    if i < 0 then ['-'] + NatToString(-i) else NatToString(i)
  }

  /** Python's `int(s)` on a string of digits, read left to right. */
  function ParseNat(s: string): nat
    requires AllDigits(s)
  {
    if s == [] then 0
    else
      assert forall k :: 0 <= k < |s| - 1 ==> s[..|s| - 1][k] == s[k];
      10 * ParseNat(s[..|s| - 1]) + DigitValue(s[|s| - 1])
  }

  /** Python's `int(s)` on what `IntToString` produces. */
  function ParseInt(s: string): int
  {
    if s != [] && s[0] == '-' && AllDigits(s[1..]) then 0 - ParseNat(s[1..])
    else if AllDigits(s) then ParseNat(s)
    else 0
  }

  lemma {:induction false} NatRoundTrip(n: nat)
    ensures ParseNat(NatToString(n)) == n
  {
    if n >= 10 {
      var s := NatToString(n);
      assert s[..|s| - 1] == NatToString(n / 10);
      NatRoundTrip(n / 10);
    }
  }

  /** `int(str(i)) == i`: the decimal rendering loses nothing. */
  lemma IntRoundTrip(i: int)
    ensures ParseInt(IntToString(i)) == i
  {
    var t := NatToString(if i < 0 then -i else i);
    NatRoundTrip(if i < 0 then -i else i);
    if i < 0 {
      var s := ['-'] + t;
      assert s[1..] == t;
      assert ParseInt(s) == 0 - ParseNat(t);
    } else {
      assert IsDigit(t[0]);
      assert ParseInt(t) == ParseNat(t);
    }
  }

  /** Python's `str(v)` for the scalars that can hold an identifier. */
  function PyStr(v: Value): string
    requires HasText(v)
  {
    match v
    case Null => "None"
    case NaN => "nan"
    case Bool(b) => if b then "True" else "False"
    case Int(i) => IntToString(i)
    case Str(s) => s
  }

  // ------------------------------------------------------- ",".join / split

  /** `",".join(parts)`. */
  function Join(parts: seq<string>): string
  {
    if parts == [] then ""
    else if |parts| == 1 then parts[0]
    else parts[0] + "," + Join(parts[1..])
  }

  /** Index of the first comma of `s`. */
  function FirstComma(s: string): (i: nat)
    requires ',' in s
    ensures i < |s| && s[i] == ',' && ',' !in s[..i]
  {
    if s[0] == ',' then 0 else 1 + FirstComma(s[1..])
  }

  /** `s.split(",")`: never empty; `"".split(",") == [""]`. */
  function Split(s: string): (parts: seq<string>)
    ensures parts != []
    decreases |s|
  {
    if ',' !in s then [s]
    else
      var i := FirstComma(s);
      [s[..i]] + Split(s[i + 1..])
  }

  /** Splitting undoes joining when there is at least one part and no part holds a comma. */
  lemma {:induction false} SplitJoin(parts: seq<string>)
    requires parts != []
    requires forall k :: 0 <= k < |parts| ==> ',' !in parts[k]
    ensures Split(Join(parts)) == parts
  {
    if |parts| > 1 {
      var s := Join(parts);
      var p := parts[0];
      assert s == p + "," + Join(parts[1..]);
      assert s[|p|] == ',';
      assert s[..|p|] == p;
      var i := FirstComma(s);
      assert i == |p|;
      assert s[i + 1..] == Join(parts[1..]);
      SplitJoin(parts[1..]);
    }
  }

  // -------------------------------------------------------------- str.strip

  /** The characters for which Python's `str.isspace()` holds. */
  const Whitespace: set<char> := {
    ' ', '\t', '\n', '\r', '\U{B}', '\U{C}', '\U{1C}', '\U{1D}', '\U{1E}', '\U{1F}',
    '\U{85}', '\U{A0}', '\U{1680}',
    '\U{2000}', '\U{2001}', '\U{2002}', '\U{2003}', '\U{2004}', '\U{2005}',
    '\U{2006}', '\U{2007}', '\U{2008}', '\U{2009}', '\U{200A}',
    '\U{2028}', '\U{2029}', '\U{202F}', '\U{205F}', '\U{3000}' }

  /** `r` occurs in `s` at index `i`. */
  ghost predicate SliceAt(r: string, s: string, i: nat)
  {
    i + |r| <= |s| && s[i..i + |r|] == r
  }

  /** `r` is a contiguous piece of `s`. */
  ghost predicate IsSlice(r: string, s: string)
  {
    exists i: nat :: SliceAt(r, s, i)
  }

  /** `s.lstrip(cs)`: drop leading characters of `cs`, and only those. */
  function LStrip(s: string, cs: set<char>): (r: string)
    ensures |r| <= |s| && r == s[|s| - |r|..]
    ensures forall k :: 0 <= k < |s| - |r| ==> s[k] in cs
    ensures r != [] ==> r[0] !in cs
  {
    if s != [] && s[0] in cs then LStrip(s[1..], cs) else s
  }

  /** `s.rstrip(cs)`: drop trailing characters of `cs`, and only those. */
  function RStrip(s: string, cs: set<char>): (r: string)
    ensures |r| <= |s| && r == s[..|r|]
    ensures forall k :: |r| <= k < |s| ==> s[k] in cs
    ensures r != [] ==> r[|r| - 1] !in cs
  {
    if s != [] && s[|s| - 1] in cs then RStrip(s[..|s| - 1], cs) else s
  }

  /** `r` is `s` at index `i` with only characters of `cs` cut away on either side. */
  ghost predicate Trimmed(r: string, s: string, cs: set<char>, i: nat)
  {
    && SliceAt(r, s, i)
    && (forall k :: 0 <= k < i ==> s[k] in cs)
    && (forall k :: i + |r| <= k < |s| ==> s[k] in cs)
  }

  /** `s.strip(cs)`: a contiguous piece of `s` that neither starts nor ends with a character of `cs`. */
  function Strip(s: string, cs: set<char>): (r: string)
    ensures |r| <= |s|
    ensures r != [] ==> r[0] !in cs && r[|r| - 1] !in cs
    ensures exists i: nat :: Trimmed(r, s, cs, i)
  {
    var l := LStrip(s, cs);
    var r := RStrip(l, cs);
    StripTrims(s, cs, l, r);
    r
  }

  /** One character `c` on each side of a string that neither starts nor ends with `c` is all that stripping `c` removes. */
  lemma StripAround(s: string, c: char)
    requires s != [] && s[0] != c && s[|s| - 1] != c
    ensures Strip([c] + s + [c], {c}) == s
  {
    var t := [c] + s + [c];
    assert t[1..] == s + [c];
    LStripStep(t, {c});
    LStripStops(s + [c], {c});
    assert (s + [c])[..|s|] == s;
    RStripStep(s + [c], {c});
    RStripStops(s, {c});
  }

  lemma StripTrims(s: string, cs: set<char>, l: string, r: string)
    requires l == LStrip(s, cs) && r == RStrip(l, cs)
    ensures Trimmed(r, s, cs, |s| - |l|)
  {
    var i := |s| - |l|;
    assert l == s[i..];
    assert r == l[..|r|];
    assert s[i..i + |r|] == r by {
      assert s[i..i + |r|] == s[i..][..|r|];
    }
    forall k | i + |r| <= k < |s|
      ensures s[k] in cs
    {
      assert s[k] == l[k - i];
    }
  }

  /** A value that neither starts nor ends with a character of `cs` is left as it is. */
  lemma StripKeeps(s: string, cs: set<char>)
    requires s != [] && s[0] !in cs && s[|s| - 1] !in cs
    ensures Strip(s, cs) == s
  {
    LStripStops(s, cs);
    RStripStops(s, cs);
  }

  lemma LStripStops(s: string, cs: set<char>)
    requires s != [] && s[0] !in cs
    ensures LStrip(s, cs) == s
  {
  }

  lemma RStripStops(s: string, cs: set<char>)
    requires s != [] && s[|s| - 1] !in cs
    ensures RStrip(s, cs) == s
  {
  }

  lemma LStripStep(s: string, cs: set<char>)
    requires s != [] && s[0] in cs
    ensures LStrip(s, cs) == LStrip(s[1..], cs)
  {
  }

  lemma RStripStep(s: string, cs: set<char>)
    requires s != [] && s[|s| - 1] in cs
    ensures RStrip(s, cs) == RStrip(s[..|s| - 1], cs)
  {
  }

  lemma StripIsSlice(s: string, cs: set<char>)
    ensures IsSlice(Strip(s, cs), s)
  {
    var i: nat :| Trimmed(Strip(s, cs), s, cs, i);
    assert SliceAt(Strip(s, cs), s, i);
  }

  /** `not s.strip()`: every character of `s` is whitespace. */
  predicate IsBlank(s: string)
  {
    forall k :: 0 <= k < |s| ==> s[k] in Whitespace
  }

  lemma {:induction false} LStripBlank(s: string)
    requires IsBlank(s)
    ensures LStrip(s, Whitespace) == []
  {
    if s != [] {
      assert forall k :: 0 <= k < |s| - 1 ==> s[1..][k] == s[k + 1];
      LStripBlank(s[1..]);
    }
  }

  /** A string strips to nothing exactly when it is all whitespace. */
  lemma BlankIffStripsToEmpty(s: string)
    ensures IsBlank(s) <==> Strip(s, Whitespace) == []
  {
    if IsBlank(s) {
      LStripBlank(s);
    }
    if Strip(s, Whitespace) == [] {
      var i: nat :| Trimmed(Strip(s, Whitespace), s, Whitespace, i);
      forall k | 0 <= k < |s|
        ensures s[k] in Whitespace
      {
        if k < i {
          assert s[k] in Whitespace;
        } else {
          assert i + 0 <= k;
        }
      }
    }
  }

  /** A slice of a slice is a slice. */
  lemma SliceOfSlice(a: string, b: string, c: string)
    requires IsSlice(a, b) && IsSlice(b, c)
    ensures IsSlice(a, c)
  {
    var i: nat :| SliceAt(a, b, i);
    var j: nat :| SliceAt(b, c, j);
    forall k | 0 <= k < |a|
      ensures c[j + i + k] == a[k]
    {
      assert b[i + k] == a[k];
      assert c[j + (i + k)] == b[i + k];
    }
    assert c[j + i..j + i + |a|] == a;
    assert SliceAt(a, c, j + i);
  }
}
