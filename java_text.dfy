/**
 * The pieces of `java.lang.String` and `java.lang.Integer` that the handlers,
 * the repository and the configuration loaders rely on: `Integer.parseInt`,
 * `String.valueOf(int)`, `String.split` with a one-character pattern,
 * `lastIndexOf` + `substring`, and `contains`; and the wrap-around of
 * `int` and `long` arithmetic.
 */
module JavaText {
  import opened Wrappers

  const INT_MIN: int := -0x8000_0000
  const INT_MAX: int := 0x7FFF_FFFF

  /** Java's `int`. */
  type Int32 = x: int | INT_MIN <= x <= INT_MAX

  /** Java `int` arithmetic: the mathematical value reduced modulo 2^32 into the `int` range. */
  function Wrap32(x: int): (r: Int32)
    ensures INT_MIN <= x <= INT_MAX ==> r == x
    ensures (r - x) % 0x1_0000_0000 == 0
  {
    (x - INT_MIN) % 0x1_0000_0000 + INT_MIN
  }

  const LONG_MIN: int := -0x8000_0000_0000_0000
  const LONG_MAX: int := 0x7FFF_FFFF_FFFF_FFFF

  /** Java `long` arithmetic: the mathematical value reduced modulo 2^64 into the `long` range. */
  function Wrap64(x: int): (r: int)
    ensures LONG_MIN <= r <= LONG_MAX
    ensures LONG_MIN <= x <= LONG_MAX ==> r == x
    ensures (r - x) % 0x1_0000_0000_0000_0000 == 0
  {
    (x - LONG_MIN) % 0x1_0000_0000_0000_0000 + LONG_MIN
  }

  // ---------------------------------------------------------------------
  // Decimal digits

  predicate IsDigit(c: char) { '0' <= c <= '9' }

  predicate AllDigits(s: string) { forall i :: 0 <= i < |s| ==> IsDigit(s[i]) }

  function DigitValue(c: char): nat
    requires IsDigit(c)
  {
    (c as int) - ('0' as int)
  }

  function DigitChar(d: nat): (c: char)
    requires d < 10
    ensures IsDigit(c) && DigitValue(c) == d
  {
    (('0' as int) + d) as char
  }

  /** The value of a string of decimal digits, most significant first. */
  function DecimalValue(s: string): nat
    requires AllDigits(s)
  {
    if s == [] then 0 else DecimalValue(s[..|s| - 1]) * 10 + DigitValue(s[|s| - 1])
  }

  /** The shortest decimal spelling of a natural number. */
  function NatToDecimal(n: nat): (s: string)
    ensures |s| > 0 && AllDigits(s)
    ensures DecimalValue(s) == n
  {
    if n < 10 then [DigitChar(n)]
    else
      var s := NatToDecimal(n / 10) + [DigitChar(n % 10)];
      assert s[..|s| - 1] == NatToDecimal(n / 10);
      s
  }

  /** `String.valueOf(int)`: an optional minus sign followed by the digits. */
  function IntToDecimal(n: int): (r: string)
    ensures |r| > 0 && (r[0] == '-' <==> n < 0)
    ensures n >= 0 ==> AllDigits(r) && DecimalValue(r) == n
    ensures n < 0 ==> AllDigits(r[1..]) && DecimalValue(r[1..]) == -n
  {
    if n < 0 then "-" + NatToDecimal(-n) else NatToDecimal(n)
  }

  /**
   * `Integer.parseInt(s)` in radix 10: an optional `+` or `-`, then at least
   * one digit, and a value that fits in an `int`. `None` stands for the
   * `NumberFormatException` Java throws on every other string.
   */
  function ParseInt(s: string): (r: Option<Int32>)
    ensures r.Some? ==> |s| > 0
    ensures r.Some? && r.value < 0 ==> s[0] == '-'
    ensures r.Some? ==> IsDigit(s[0]) || s[0] == '-' || s[0] == '+'
    ensures r.Some? ==> forall i :: 1 <= i < |s| ==> IsDigit(s[i])
  {
    if |s| == 0 then None
    else
      var digits := if s[0] == '-' || s[0] == '+' then s[1..] else s;
      if |digits| == 0 || !AllDigits(digits) then None
      else
        var magnitude: int := DecimalValue(digits);
        var v := if s[0] == '-' then -magnitude else magnitude;
        if INT_MIN <= v <= INT_MAX then Some(v) else None
  }

  /** Every `int` survives `String.valueOf` followed by `Integer.parseInt`. */
  lemma ParseIntOfDecimal(n: Int32)
    ensures ParseInt(IntToDecimal(n)) == Some(n)
  {
    var s := IntToDecimal(n);
    var m: int := n;
    if m < 0 {
      assert s[0] == '-' && s[1..] == NatToDecimal(-m);
    } else {
      assert IsDigit(s[0]);
    }
  }

  /** A string that starts with neither sign nor digit never parses. */
  lemma ParseIntRejectsNonNumeric(s: string, i: nat)
    requires i < |s| && !IsDigit(s[i])
    requires i == 0 ==> s[0] != '-' && s[0] != '+'
    ensures ParseInt(s) == None
  {
    if i > 0 && (s[0] == '-' || s[0] == '+') {
      assert s[1..][i - 1] == s[i];
    }
  }

  // ---------------------------------------------------------------------
  // Splitting and joining on one character

  /** An unsigned digit string parses to its value exactly when that value fits in an `int`. */
  lemma ParseIntOfDigits(s: string)
    requires |s| > 0 && AllDigits(s)
    ensures ParseInt(s) == if DecimalValue(s) <= INT_MAX then Some(DecimalValue(s)) else None
  {
    assert IsDigit(s[0]);
  }

  /** `s.indexOf(c)`, with `|s|` standing for Java's `-1`. */
  function IndexOf(s: string, c: char): (i: nat)
    ensures i <= |s|
    ensures i < |s| ==> s[i] == c
    ensures c !in s[..i]
    ensures i == |s| <==> c !in s
  {
    if s == [] then 0
    else if s[0] == c then 0
    else
      var j := 1 + IndexOf(s[1..], c);
      assert s[..j] == [s[0]] + s[1..][..j - 1];
      j
  }

  /** Every piece between occurrences of `c`, empty pieces included. */
  function SplitAll(s: string, c: char): (parts: seq<string>)
    ensures |parts| >= 1
    ensures forall i :: 0 <= i < |parts| ==> c !in parts[i]
    decreases |s|
  {
    var i := IndexOf(s, c);
    if i == |s| then [s] else [s[..i]] + SplitAll(s[i + 1..], c)
  }

  function DropTrailingEmpty(parts: seq<string>): (r: seq<string>)
    ensures |r| <= |parts| && r == parts[..|r|]
    ensures r != [] ==> r[|r| - 1] != ""
    ensures forall i :: |r| <= i < |parts| ==> parts[i] == ""
  {
    if parts != [] && parts[|parts| - 1] == "" then DropTrailingEmpty(parts[..|parts| - 1])
    else parts
  }

  /**
   * `s.split(c)` for a one-character literal pattern and limit 0: a string
   * without `c` comes back whole (even the empty string); otherwise the
   * pieces between occurrences, with trailing empty pieces removed.
   */
  function Split(s: string, c: char): (parts: seq<string>)
    ensures forall i :: 0 <= i < |parts| ==> c !in parts[i]
    ensures c !in s ==> parts == [s]
    ensures parts == [] ==> forall i :: 0 <= i < |s| ==> s[i] == c
    ensures c in s && parts != [] ==> parts[|parts| - 1] != ""
  {
    if c !in s then [s]
    else
      var all := SplitAll(s, c);
      JoinSplitAll(s, c);
      var parts := DropTrailingEmpty(all);
      if parts == [] then
        JoinOfEmpties(all, c);
        parts
      else parts
  }

  /** Joining nothing but empty pieces leaves only separators. */
  lemma {:induction false} JoinOfEmpties(parts: seq<string>, c: char)
    requires forall i :: 0 <= i < |parts| ==> parts[i] == ""
    ensures forall i :: 0 <= i < |Join(parts, c)| ==> Join(parts, c)[i] == c
  {
    if |parts| >= 2 {
      JoinOfEmpties(parts[1..], c);
      assert Join(parts, c) == [c] + Join(parts[1..], c);
    }
  }

  /** The pieces glued back together with `c` between them. */
  function Join(parts: seq<string>, c: char): string
  {
    if |parts| == 0 then ""
    else if |parts| == 1 then parts[0]
    else parts[0] + [c] + Join(parts[1..], c)
  }

  lemma {:induction false} JoinSplitAll(s: string, c: char)
    ensures Join(SplitAll(s, c), c) == s
    decreases |s|
  {
    var i := IndexOf(s, c);
    if i < |s| {
      var rest := SplitAll(s[i + 1..], c);
      var parts := [s[..i]] + rest;
      assert SplitAll(s, c) == parts;
      assert parts[0] == s[..i] && parts[1..] == rest && |parts| >= 2;
      assert Join(parts, c) == s[..i] + [c] + Join(rest, c);
      JoinSplitAll(s[i + 1..], c);
      assert s == s[..i] + [c] + s[i + 1..];
    }
  }

  lemma {:induction false} SplitAllJoin(parts: seq<string>, c: char)
    requires |parts| >= 1
    requires forall i :: 0 <= i < |parts| ==> c !in parts[i]
    ensures SplitAll(Join(parts, c), c) == parts
  {
    if |parts| > 1 {
      var s := Join(parts, c);
      var p := parts[0];
      assert s == p + [c] + Join(parts[1..], c);
      assert s[..|p|] == p;
      assert s[|p|] == c;
      assert c !in s[..|p|];
      IndexOfPrefix(s, c, |p|);
      assert s[|p| + 1..] == Join(parts[1..], c);
      SplitAllJoin(parts[1..], c);
    } else {
      assert c !in parts[0];
    }
  }

  lemma IndexOfPrefix(s: string, c: char, k: nat)
    requires k < |s| && s[k] == c && c !in s[..k]
    ensures IndexOf(s, c) == k
  {
  }

  lemma JoinContains(parts: seq<string>, c: char)
    requires forall i :: 0 <= i < |parts| ==> c !in parts[i]
    ensures c in Join(parts, c) <==> |parts| >= 2
  {
    if |parts| >= 2 {
      var s := Join(parts, c);
      assert s[|parts[0]|] == c;
    } else if |parts| == 1 {
      assert c !in parts[0];
    }
  }

  /**
   * Splitting a join gives back its pieces, provided no piece holds the
   * separator and the last piece is not an empty one that Java would drop.
   */
  lemma SplitJoin(parts: seq<string>, c: char)
    requires |parts| >= 1
    requires forall i :: 0 <= i < |parts| ==> c !in parts[i]
    requires |parts| == 1 || parts[|parts| - 1] != ""
    ensures Split(Join(parts, c), c) == parts
  {
    JoinContains(parts, c);
    if |parts| >= 2 {
      SplitAllJoin(parts, c);
    }
  }

  // ---------------------------------------------------------------------
  // Path segments and substrings

  /** `path.substring(path.lastIndexOf('/') + 1)`: the longest suffix without a slash. */
  function TrailingSegment(path: string): (seg: string)
    ensures |seg| <= |path| && path[|path| - |seg|..] == seg
    ensures '/' !in seg
    ensures |seg| < |path| ==> path[|path| - |seg| - 1] == '/'
  {
    if path == [] then ""
    else if path[|path| - 1] == '/' then ""
    else
      var seg := TrailingSegment(path[..|path| - 1]) + [path[|path| - 1]];
      assert path == path[..|path| - 1] + [path[|path| - 1]];
      seg
  }

  /** Whatever precedes the last slash, the segment after it is what comes back. */
  lemma {:induction false} TrailingSegmentAfterSlash(prefix: string, seg: string)
    requires '/' !in seg
    ensures TrailingSegment(prefix + "/" + seg) == seg
    decreases |seg|
  {
    var path := prefix + "/" + seg;
    if seg != [] {
      var init := seg[..|seg| - 1];
      assert path[..|path| - 1] == prefix + "/" + init;
      assert path[|path| - 1] == seg[|seg| - 1];
      TrailingSegmentAfterSlash(prefix, init);
      assert seg == init + [seg[|seg| - 1]];
    }
  }

  predicate StartsWith(s: string, prefix: string)
  {
    |prefix| <= |s| && s[..|prefix|] == prefix
  }

  /** `s.contains(sub)`: `sub` starts at some position of `s`. */
  predicate Contains(s: string, sub: string)
    ensures Contains(s, sub) <==> exists i :: 0 <= i <= |s| && StartsWith(s[i..], sub)
    decreases |s|
  {
    assert s[0..] == s;
    if StartsWith(s, sub) then true
    else if |s| == 0 then false
    else
      assert forall j :: 1 <= j <= |s| ==> s[1..][j - 1..] == s[j..];
      Contains(s[1..], sub)
  }

  /** Whatever text surrounds `sub`, the whole contains it. */
  lemma {:induction false} ContainsInfix(pre: string, sub: string, post: string)
    ensures Contains(pre + sub + post, sub)
    decreases |pre|
  {
    var s := pre + sub + post;
    if pre == [] {
      assert s[..|sub|] == sub;
    } else {
      assert s[1..] == pre[1..] + sub + post;
      ContainsInfix(pre[1..], sub, post);
    }
  }
}
