/**
 * The slice of JavaScript semantics the server's decisions rely on: numbers
 * (a JSON body can carry an infinity, as an overflowing literal such as
 * `1e999`; `NaN` is kept for generality), `Array.prototype.slice` with a positive or a
 * negative bound, `Array.prototype.join`, `String.prototype.trim` and the
 * decimal rendering of a counter inside a template literal.
 */
module Js {

  /** A JavaScript number: finite, `NaN`, or one of the two infinities. */
  datatype Number = Finite(value: real) | NaN | Infinity(negative: bool) {

    /** `Number.isFinite` */
    predicate IsFinite() {
      Finite?
    }
  }

  function Min(a: nat, b: nat): nat {
    if a <= b then a else b
  }

  /** `s.slice(0, n)`: the first `n` elements, or all of `s` when it is shorter. */
  function Prefix<T>(s: seq<T>, n: nat): (r: seq<T>)
    ensures |r| == Min(|s|, n)
    ensures r == s[..|r|]
  {
    if |s| <= n then s else s[..n]
  }

  /** `s.slice(-n)` for a positive `n`: the last `n` elements, or all of `s` when it is shorter. */
  function Suffix<T>(s: seq<T>, n: nat): (r: seq<T>)
    ensures |r| == Min(|s|, n)
    ensures r == s[|s| - |r|..]
  {
    if |s| <= n then s else s[|s| - n..]
  }

  /** `xs.join(sep)` */
  function Join(xs: seq<string>, sep: string): (r: string)
    ensures |xs| == 0 ==> r == ""
    ensures |xs| > 0 ==> xs[0] <= r
  {
    if |xs| == 0 then ""
    else if |xs| == 1 then xs[0]
    else xs[0] + sep + Join(xs[1..], sep)
  }

  /** A join ends with its last element. */
  lemma {:induction false} JoinEndsWith(xs: seq<string>, sep: string)
    requires |xs| > 0
    ensures |xs[|xs| - 1]| <= |Join(xs, sep)|
    ensures Join(xs, sep)[|Join(xs, sep)| - |xs[|xs| - 1]|..] == xs[|xs| - 1]
  {
    if |xs| > 1 {
      var rest := Join(xs[1..], sep);
      JoinEndsWith(xs[1..], sep);
      var r := xs[0] + sep + rest;
      assert r[|r| - |rest|..] == rest;
    }
  }

  /** The join of two elements, written out. */
  lemma JoinTwo(a: string, b: string, sep: string)
    ensures Join([a, b], sep) == a + sep + b
  {
    assert [a, b][1..] == [b];
  }

  /** The join of three elements, written out. */
  lemma JoinThree(a: string, b: string, c: string, sep: string)
    ensures Join([a, b, c], sep) == a + sep + b + sep + c
  {
    assert [a, b, c][1..] == [b, c];
    JoinTwo(b, c, sep);
  }

  /** Appending an element to a non-empty list appends the separator and the element to its join. */
  lemma {:induction false} JoinSnoc(xs: seq<string>, y: string, sep: string)
    requires |xs| > 0
    ensures Join(xs + [y], sep) == Join(xs, sep) + sep + y
  {
    var ys := xs + [y];
    assert ys[0] == xs[0];
    if |xs| == 1 {
      assert ys[1..] == [y];
    } else {
      assert ys[1..] == xs[1..] + [y];
      JoinSnoc(xs[1..], y, sep);
      calc {
        Join(ys, sep);
        xs[0] + sep + Join(xs[1..] + [y], sep);
        xs[0] + sep + (Join(xs[1..], sep) + sep + y);
        (xs[0] + sep + Join(xs[1..], sep)) + sep + y;
      }
    }
  }

  /**
   * With a non-empty separator a join is empty exactly when there is nothing
   * to join or the only element is itself empty: two or more elements always
   * leave a separator behind.
   */
  lemma JoinEmptyIff(xs: seq<string>, sep: string)
    requires |sep| > 0
    ensures Join(xs, sep) == "" <==> |xs| == 0 || (|xs| == 1 && xs[0] == "")
  {
    if |xs| >= 2 {
      assert Join(xs, sep) == xs[0] + sep + Join(xs[1..], sep);
      assert |Join(xs, sep)| >= |sep|;
    }
  }

  /** The characters `String.prototype.trim` strips: WhiteSpace and LineTerminator of ECMA-262. */
  predicate IsWhiteSpace(c: char) {
    var k := c as int;
    k == 0x09 || k == 0x0A || k == 0x0B || k == 0x0C || k == 0x0D || k == 0x20
    || k == 0xA0 || k == 0x1680 || (0x2000 <= k <= 0x200A)
    || k == 0x2028 || k == 0x2029 || k == 0x202F || k == 0x205F || k == 0x3000 || k == 0xFEFF
  }

  /** `s.trimStart()`: the suffix left after dropping leading white space. */
  function TrimStart(s: string): (r: string)
    ensures |r| <= |s|
    ensures r == s[|s| - |r|..]
    ensures |r| > 0 ==> !IsWhiteSpace(r[0])
    ensures forall i :: 0 <= i < |s| - |r| ==> IsWhiteSpace(s[i])
  {
    if |s| > 0 && IsWhiteSpace(s[0]) then TrimStart(s[1..]) else s
  }

  /** `s.trimEnd()`: the prefix left after dropping trailing white space. */
  function TrimEnd(s: string): (r: string)
    ensures |r| <= |s|
    ensures r == s[..|r|]
    ensures |r| > 0 ==> !IsWhiteSpace(r[|r| - 1])
    ensures forall i :: |r| <= i < |s| ==> IsWhiteSpace(s[i])
  {
    if |s| > 0 && IsWhiteSpace(s[|s| - 1]) then TrimEnd(s[..|s| - 1]) else s
  }

  /** How many white-space characters `trim` removes from the front of `s`. */
  function LeadingWhiteSpace(s: string): nat
    ensures LeadingWhiteSpace(s) <= |s|
  {
    |s| - |TrimStart(s)|
  }

  /**
   * `s.trim()`: the contiguous middle of `s` that neither starts nor ends with
   * white space, everything cut away on either side being white space.
   */
  function Trim(s: string): (r: string)
    ensures LeadingWhiteSpace(s) + |r| <= |s|
    ensures r == s[LeadingWhiteSpace(s)..LeadingWhiteSpace(s) + |r|]
    ensures forall i :: 0 <= i < LeadingWhiteSpace(s) ==> IsWhiteSpace(s[i])
    ensures forall i :: LeadingWhiteSpace(s) + |r| <= i < |s| ==> IsWhiteSpace(s[i])
    ensures |r| > 0 ==> !IsWhiteSpace(r[0]) && !IsWhiteSpace(r[|r| - 1])
  {
    TrimEnd(TrimStart(s))
  }

  /** Trimming leaves nothing exactly when the whole string is white space. */
  lemma TrimEmptyIff(s: string)
    ensures Trim(s) == "" <==> forall i :: 0 <= i < |s| ==> IsWhiteSpace(s[i])
  {
    if Trim(s) != "" {
      assert !IsWhiteSpace(s[LeadingWhiteSpace(s)]);
    }
  }

  /** Trimming twice is trimming once. */
  lemma TrimIdempotent(s: string)
    ensures Trim(Trim(s)) == Trim(s)
  {
    var t := Trim(s);
    if |t| > 0 {
      assert TrimStart(t) == t;
      assert TrimEnd(t) == t;
    }
  }

  predicate IsDigit(c: char) {
    '0' as int <= c as int <= '9' as int
  }

  function DigitChar(d: nat): (c: char)
    requires d < 10
    ensures IsDigit(c)
    ensures c as int - '0' as int == d
  {
    "0123456789"[d]
  }

  /** The value of a decimal digit string; the empty string reads as zero. */
  function DecimalValue(s: string): nat
    requires forall i :: 0 <= i < |s| ==> IsDigit(s[i])
  {
    if |s| == 0 then 0
    else
      assert IsDigit(s[|s| - 1]);
      DecimalValue(s[..|s| - 1]) * 10 + (s[|s| - 1] as int - '0' as int)
  }

  /**
   * `${n}` for a non-negative integer: a non-empty run of decimal digits with
   * no leading zero except for zero itself.
   */
  function NatToString(n: nat): (r: string)
    ensures |r| > 0
    ensures forall i :: 0 <= i < |r| ==> IsDigit(r[i])
    ensures r[0] == '0' <==> n == 0
    ensures r[0] == '0' ==> |r| == 1
  {
    if n < 10 then [DigitChar(n)] else NatToString(n / 10) + [DigitChar(n % 10)]
  }

  /** Rendering a counter and reading the digits back gives the counter. */
  lemma {:induction false} DecimalRoundTrip(n: nat)
    ensures DecimalValue(NatToString(n)) == n
  {
    if n >= 10 {
      var r := NatToString(n);
      assert r[..|r| - 1] == NatToString(n / 10);
      DecimalRoundTrip(n / 10);
    }
  }
}
