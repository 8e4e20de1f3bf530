/**
 * The JavaScript string primitives server.js builds on: the whitespace class
 * shared by `\s`, `String.prototype.trim` and `parseInt`, prefix and substring
 * tests, `split('\n')` / `join('\n')`, and `parseInt` with its radix-prefix and
 * NaN behaviour. Strings are sequences of characters.
 */
module Text {

  /** JavaScript WhiteSpace and LineTerminator characters (ECMA-262 sections 12.2 and 12.3). */
  predicate IsSpace(c: char) {
    c == ' ' || c == '\t' || c == '\n' || c == '\r' ||
    c as int == 0x0B || c as int == 0x0C || c as int == 0xA0 || c as int == 0x1680 ||
    (0x2000 <= c as int <= 0x200A) || c as int == 0x2028 || c as int == 0x2029 ||
    c as int == 0x202F || c as int == 0x205F || c as int == 0x3000 || c as int == 0xFEFF
  }

  predicate NotSpace(c: char) { !IsSpace(c) }

  /** `\d`: ASCII decimal digits only. */
  predicate IsDigit(c: char) { '0' <= c <= '9' }

  predicate IsHexDigit(c: char) { IsDigit(c) || 'a' <= c <= 'f' || 'A' <= c <= 'F' }

  /** `\w`, whose complement decides `\b`. */
  predicate IsWordChar(c: char) { 'a' <= c <= 'z' || 'A' <= c <= 'Z' || IsDigit(c) || c == '_' }

  /** A non-empty run of non-whitespace characters: what `\S+` matches. */
  predicate IsToken(s: string) { |s| > 0 && forall k :: 0 <= k < |s| ==> !IsSpace(s[k]) }

  predicate IsBlank(s: string) { forall k :: 0 <= k < |s| ==> IsSpace(s[k]) }

  predicate IsDigits(s: string) { |s| > 0 && forall k :: 0 <= k < |s| ==> IsDigit(s[k]) }

  /** `p` occurs in `s` starting at index `i`. */
  predicate HasAt(s: string, i: nat, p: string) {
    i + |p| <= |s| && s[i..i + |p|] == p
  }

  predicate StartsWith(s: string, p: string) { HasAt(s, 0, p) }

  /** An occurrence stays where it is when text is appended. */
  lemma HasAtLeft(x: string, y: string, k: nat, p: string)
    requires HasAt(x, k, p)
    ensures HasAt(x + y, k, p)
  {
    assert (x + y)[k..k + |p|] == x[k..k + |p|];
  }

  /** An occurrence moves by the length of what is prepended. */
  lemma HasAtRight(x: string, y: string, k: nat, p: string)
    requires HasAt(y, k, p)
    ensures HasAt(x + y, |x| + k, p)
  {
    assert (x + y)[|x| + k..|x| + k + |p|] == y[k..k + |p|];
  }

  /** An occurrence cuts the string into what precedes it, itself, and what follows it. */
  lemma HasAtSplit(s: string, i: nat, p: string)
    requires HasAt(s, i, p)
    ensures s == s[..i] + (p + s[i + |p|..])
  {
    assert s == s[..i] + s[i..i + |p|] + s[i + |p|..];
  }

  /** A string whose first character differs from that of `p` does not start with `p`. */
  lemma NotStartsWith(s: string, p: string)
    requires |p| > 0 && (s == [] || s[0] != p[0])
    ensures !StartsWith(s, p)
  {
    assert |p| <= |s| ==> s[0..|p|][0] == s[0];
  }

  /** The end of the longest run of characters satisfying `p` that starts at `i`. */
  function Span(s: string, i: nat, p: char -> bool): (j: nat)
    requires i <= |s|
    ensures i <= j <= |s|
    ensures forall k :: i <= k < j ==> p(s[k])
    ensures j == |s| || !p(s[j])
    decreases |s| - i
  {
    if i < |s| && p(s[i]) then Span(s, i + 1, p) else i
  }

  /** The start of the longest run of characters satisfying `p` that ends at `j`. */
  function SpanBack(s: string, j: nat, p: char -> bool): (i: nat)
    requires j <= |s|
    ensures i <= j
    ensures forall k :: i <= k < j ==> p(s[k])
    ensures i == 0 || !p(s[i - 1])
  {
    if 0 < j && p(s[j - 1]) then SpanBack(s, j - 1, p) else j
  }

  /** A maximal run is unique: any end point that satisfies Span's contract is Span's result. */
  lemma SpanIs(s: string, i: nat, j: nat, p: char -> bool)
    requires i <= j <= |s|
    requires forall k :: i <= k < j ==> p(s[k])
    requires j == |s| || !p(s[j])
    ensures Span(s, i, p) == j
  {
  }

  /** `String.prototype.trim`: drops leading and trailing whitespace and nothing else. */
  function Trim(s: string): (r: string)
    ensures r == [] || (!IsSpace(r[0]) && !IsSpace(r[|r| - 1]))
  {
    var a := Span(s, 0, IsSpace);
    var b := SpanBack(s, |s|, IsSpace);
    if b <= a then
      assert s[0..0] == [];
      []
    else
      s[a..b]
  }

  /** Trim keeps a middle slice of its argument and drops only whitespace around it. */
  lemma TrimShape(s: string)
    ensures exists a, b ::
              && 0 <= a <= b <= |s| && Trim(s) == s[a..b]
              && (forall k :: 0 <= k < a ==> IsSpace(s[k]))
              && (forall k :: b <= k < |s| ==> IsSpace(s[k]))
  {
    var a := Span(s, 0, IsSpace);
    var b := SpanBack(s, |s|, IsSpace);
    if b <= a {
      assert Trim(s) == s[a..a];
    } else {
      assert Trim(s) == s[a..b];
    }
  }

  /** Trim drops a blank prefix and a blank suffix and nothing else. */
  lemma TrimSplits(s: string) returns (pre: string, post: string)
    ensures IsBlank(pre) && IsBlank(post) && s == pre + Trim(s) + post
  {
    TrimShape(s);
    var a, b :|
      && 0 <= a <= b <= |s| && Trim(s) == s[a..b]
      && (forall k :: 0 <= k < a ==> IsSpace(s[k]))
      && (forall k :: b <= k < |s| ==> IsSpace(s[k]));
    pre, post := s[..a], s[b..];
    CutTwice(s, a, b);
  }

  lemma CutTwice(s: string, a: nat, b: nat)
    requires a <= b <= |s|
    ensures s == s[..a] + s[a..b] + s[b..]
  {
    assert s == s[..a] + s[a..];
    assert s[a..] == s[a..b] + s[b..];
  }

  /** A maximal run ending at `j` is unique: any start point that satisfies SpanBack's contract is SpanBack's result. */
  lemma SpanBackIs(s: string, i: nat, j: nat, p: char -> bool)
    requires i <= j <= |s|
    requires forall k :: i <= k < j ==> p(s[k])
    requires i == 0 || !p(s[i - 1])
    ensures SpanBack(s, j, p) == i
    decreases j - i
  {
    if i < j {
      SpanBackIs(s, i, j - 1, p);
    }
  }

  /** Trimming a padded token gives back the token. */
  lemma TrimPadded(pre: string, core: string, post: string)
    requires IsBlank(pre) && IsBlank(post)
    requires core == [] || (!IsSpace(core[0]) && !IsSpace(core[|core| - 1]))
    ensures Trim(pre + core + post) == core
  {
    var s := pre + core + post;
    if core == [] {
      forall k | 0 <= k < |s|
        ensures IsSpace(s[k])
      {
        if k < |pre| {
          assert s[k] == pre[k];
        } else {
          assert s[k] == post[k - |pre|];
        }
      }
      SpanIs(s, 0, |s|, IsSpace);
    } else {
      TrimCore(pre, core, post);
    }
  }

  lemma TrimCore(pre: string, core: string, post: string)
    requires IsBlank(pre) && IsBlank(post)
    requires core != [] && !IsSpace(core[0]) && !IsSpace(core[|core| - 1])
    ensures Trim(pre + core + post) == core
  {
    var s := pre + core + post;
    var e := |pre| + |core|;
    forall k | 0 <= k < |pre|
      ensures IsSpace(s[k])
    {
      assert s[k] == pre[k];
    }
    assert s[|pre|] == core[0];
    SpanIs(s, 0, |pre|, IsSpace);
    assert s[e - 1] == core[|core| - 1];
    forall k | e <= k < |s|
      ensures IsSpace(s[k])
    {
      assert s[k] == post[k - e];
    }
    SpanBackIs(s, e, |s|, IsSpace);
    assert s[|pre|..e] == core;
  }

  /** A string without surrounding whitespace is its own trim. */
  lemma TrimBare(s: string)
    requires |s| > 0 && !IsSpace(s[0]) && !IsSpace(s[|s| - 1])
    ensures Trim(s) == s
  {
    TrimPadded("", s, "");
    assert "" + s + "" == s;
  }

  /** `s.includes(p)`. */
  function Contains(s: string, p: string): (b: bool)
    ensures b <==> exists k :: 0 <= k <= |s| && HasAt(s, k, p)
  {
    ContainsFrom(s, p, 0)
  }

  function ContainsFrom(s: string, p: string, i: nat): (b: bool)
    requires i <= |s|
    ensures b <==> exists k :: i <= k <= |s| && HasAt(s, k, p)
    decreases |s| - i
  {
    HasAt(s, i, p) || (i < |s| && ContainsFrom(s, p, i + 1))
  }

  predicate NotNewline(c: char) { c != '\n' }

  /** `lines.join('\n')`. */
  function JoinLines(lines: seq<string>): string {
    if |lines| == 0 then ""
    else if |lines| == 1 then lines[0]
    else lines[0] + "\n" + JoinLines(lines[1..])
  }

  /** `s.split('\n')`: always at least one piece, no piece holds a line break, and joining gives `s` back. */
  function SplitLines(s: string): (lines: seq<string>)
    ensures |lines| >= 1
    ensures forall i :: 0 <= i < |lines| ==> '\n' !in lines[i]
    ensures JoinLines(lines) == s
    decreases |s|
  {
    var k := Span(s, 0, NotNewline);
    if k == |s| then
      assert forall c :: c in s ==> c != '\n';
      [s]
    else
      var rest := SplitLines(s[k + 1..]);
      var lines := [s[..k]] + rest;
      assert lines[1..] == rest;
      assert '\n' !in s[..k] by {
        forall c | c in s[..k] ensures c != '\n' { }
      }
      assert s == s[..k] + "\n" + s[k + 1..];
      lines
  }

  /** The other half of the round trip: splitting a join of break-free lines recovers them. */
  lemma {:induction false} SplitJoin(lines: seq<string>)
    requires |lines| >= 1
    requires forall i :: 0 <= i < |lines| ==> '\n' !in lines[i]
    ensures SplitLines(JoinLines(lines)) == lines
    decreases |lines|
  {
    var s := JoinLines(lines);
    var first := lines[0];
    assert forall k :: 0 <= k < |first| ==> first[k] != '\n' by {
      forall k | 0 <= k < |first| ensures first[k] != '\n' {
        assert first[k] in lines[0];
      }
    }
    if |lines| == 1 {
      SpanIs(s, 0, |s|, NotNewline);
    } else {
      var tail := JoinLines(lines[1..]);
      assert s == first + "\n" + tail;
      SpanIs(s, 0, |first|, NotNewline);
      assert s[|first| + 1..] == tail;
      assert s[..|first|] == first;
      SplitJoin(lines[1..]);
    }
  }

  function DigitValue(c: char): nat {
    if IsDigit(c) then (c - '0') as nat
    else if 'a' <= c <= 'f' then (c - 'a') as nat + 10
    else if 'A' <= c <= 'F' then (c - 'A') as nat + 10
    else 0
  }

  /** The value of a numeral written most significant digit first. */
  function NumeralValue(s: string, radix: nat): nat {
    if s == [] then 0 else NumeralValue(s[..|s| - 1], radix) * radix + DigitValue(s[|s| - 1])
  }

  /** A JavaScript number produced by `parseInt`: an integer, or NaN. */
  datatype IntOrNaN = Int(value: int) | NaN

  /**
   * `parseInt(s)` without a radix (ECMA-262 section 19.2.5): skip leading
   * whitespace, take an optional sign, read hexadecimal after a `0x`/`0X`
   * prefix and decimal otherwise, stop at the first character that is not a
   * digit, and give NaN when no digit was read.
   */
  function ParseInt(s: string): (r: IntOrNaN)
    ensures (forall k :: 0 <= k < |s| ==> !IsHexDigit(s[k])) ==> r == NaN
  {
    var i := Span(s, 0, IsSpace);
    var sign := if i < |s| && s[i] == '-' then -1 else 1;
    var j := if i < |s| && (s[i] == '-' || s[i] == '+') then i + 1 else i;
    Magnitude(s, j, sign)
  }

  /** The digits of `parseInt` from index `j` on, after the sign: hexadecimal after `0x`/`0X`, else decimal. */
  function Magnitude(s: string, j: nat, sign: int): (r: IntOrNaN)
    requires j <= |s|
    ensures (forall k :: j <= k < |s| ==> !IsHexDigit(s[k])) ==> r == NaN
  {
    if j + 2 <= |s| && s[j] == '0' && (s[j + 1] == 'x' || s[j + 1] == 'X') then
      var e := Span(s, j + 2, IsHexDigit);
      if e == j + 2 then NaN else Int(sign * NumeralValue(s[j + 2..e], 16))
    else
      var e := Span(s, j, IsDigit);
      if e == j then NaN else Int(sign * NumeralValue(s[j..e], 10))
  }

  /** A decimal numeral followed by anything that cannot continue it parses to its value. */
  lemma ParseIntDecimal(digits: string, rest: string)
    requires IsDigits(digits)
    requires rest == [] || !IsDigit(rest[0])
    requires !(|digits| == 1 && digits[0] == '0' && rest != [] && (rest[0] == 'x' || rest[0] == 'X'))
    ensures ParseInt(digits + rest) == Int(NumeralValue(digits, 10))
  {
    var s := digits + rest;
    assert s[0] == digits[0];
    SpanIs(s, 0, 0, IsSpace);
    DecimalMagnitude(digits, rest);
  }

  lemma DecimalMagnitude(digits: string, rest: string)
    requires IsDigits(digits)
    requires rest == [] || !IsDigit(rest[0])
    requires !(|digits| == 1 && digits[0] == '0' && rest != [] && (rest[0] == 'x' || rest[0] == 'X'))
    ensures Magnitude(digits + rest, 0, 1) == Int(NumeralValue(digits, 10))
  {
    var s := digits + rest;
    if |digits| >= 2 {
      assert s[1] == digits[1];
    } else if rest != [] {
      assert s[1] == rest[0];
    }
    assert forall k :: 0 <= k < |digits| ==> s[k] == digits[k];
    assert |digits| == |s| || s[|digits|] == rest[0];
    SpanIs(s, 0, |digits|, IsDigit);
    assert s[0..|digits|] == digits;
  }

  /** A sign `parseInt` accepts: none, `-` or `+`. */
  predicate IsSign(sgn: string) { sgn == "" || sgn == "-" || sgn == "+" }

  /** The factor a sign stands for. */
  function SignValue(sgn: string): int { if sgn == "-" then -1 else 1 }

  /** Blanks up to `i`, where something else stands: `parseInt` reads the sign there and the digits after it. */
  lemma ParseIntFrom(s: string, i: nat)
    requires i < |s| && !IsSpace(s[i]) && forall k :: 0 <= k < i ==> IsSpace(s[k])
    ensures var signed := s[i] == '-' || s[i] == '+';
      ParseInt(s) == Magnitude(s, if signed then i + 1 else i, if s[i] == '-' then -1 else 1)
  {
    SpanIs(s, 0, i, IsSpace);
  }

  /** Decimal digits from `j` to `e`, not read as a `0x` prefix. */
  lemma MagnitudeDecimal(s: string, j: nat, e: nat, sign: int)
    requires j < e <= |s| && (e == |s| || !IsDigit(s[e])) && forall k :: j <= k < e ==> IsDigit(s[k])
    requires !(j + 2 <= |s| && s[j] == '0' && (s[j + 1] == 'x' || s[j + 1] == 'X'))
    ensures Magnitude(s, j, sign) == Int(sign * NumeralValue(s[j..e], 10))
  {
    SpanIs(s, j, e, IsDigit);
  }

  /** `0x` or `0X` at `j`, then hexadecimal digits up to `e`. */
  lemma MagnitudeHex(s: string, j: nat, e: nat, sign: int)
    requires j + 2 < e <= |s| && s[j] == '0' && (s[j + 1] == 'x' || s[j + 1] == 'X')
    requires (e == |s| || !IsHexDigit(s[e])) && forall k :: j + 2 <= k < e ==> IsHexDigit(s[k])
    ensures Magnitude(s, j, sign) == Int(sign * NumeralValue(s[j + 2..e], 16))
  {
    SpanIs(s, j + 2, e, IsHexDigit);
  }

  /** Leading blanks are skipped and a sign is read, leaving the rest to Magnitude. */
  lemma SignRead(ws: string, sgn: string, t: string, s: string)
    requires IsBlank(ws) && IsSign(sgn) && s == ws + sgn + t
    requires t != [] && !IsSpace(t[0]) && (sgn == "" ==> t[0] != '-' && t[0] != '+')
    ensures ParseInt(s) == Magnitude(s, |ws| + |sgn|, SignValue(sgn))
  {
    if sgn == "" {
      assert s[|ws|] == t[0];
    } else {
      assert s[|ws|] == sgn[0];
    }
    assert forall k :: 0 <= k < |ws| ==> s[k] == ws[k];
    ParseIntFrom(s, |ws|);
  }

  /** Where a run of `P` characters stands in a text. */
  lemma RunAt(q: string, d: string, rest: string, P: char -> bool)
    requires forall k :: 0 <= k < |d| ==> P(d[k])
    ensures var s := q + d + rest;
      && (forall k :: |q| <= k < |q| + |d| ==> P(s[k]))
      && s[|q|..|q| + |d|] == d
      && (rest != [] ==> s[|q| + |d|] == rest[0])
  {
    var s := q + d + rest;
    forall k | |q| <= k < |q| + |d| ensures P(s[k]) {
      assert s[k] == d[k - |q|];
    }
  }

  /** Decimal digits at `|p|`, not read as a `0x` prefix and not followed by another digit. */
  lemma DecimalAt(p: string, digits: string, rest: string, sign: int)
    requires IsDigits(digits)
    requires rest == [] || !IsDigit(rest[0])
    requires !(|digits| == 1 && digits[0] == '0' && rest != [] && (rest[0] == 'x' || rest[0] == 'X'))
    ensures Magnitude(p + (digits + rest), |p|, sign) == Int(sign * NumeralValue(digits, 10))
  {
    Regroup(p, digits, rest);
    var s := p + digits + rest;
    var j := |p|;
    RunAt(p, digits, rest, IsDigit);
    if |digits| >= 2 {
      assert s[j + 1] == digits[1];
    }
    assert s[j] == digits[0];
    MagnitudeDecimal(s, j, j + |digits|, sign);
  }

  /** Hexadecimal digits after a `0x` or `0X` at `|p|`, not followed by another hexadecimal digit. */
  lemma HexAt(p: string, x: string, digits: string, rest: string, sign: int, s: string)
    requires IsHexPrefix(x) && s == p + x + digits + rest
    requires |digits| > 0 && forall k :: 0 <= k < |digits| ==> IsHexDigit(digits[k])
    requires rest == [] || !IsHexDigit(rest[0])
    ensures Magnitude(s, |p|, sign) == Int(sign * NumeralValue(digits, 16))
  {
    var j := |p|;
    assert s[j] == x[0] && s[j + 1] == x[1];
    RunAt(p + x, digits, rest, IsHexDigit);
    MagnitudeHex(s, j, j + 2 + |digits|, sign);
  }

  lemma Regroup(a: string, b: string, c: string)
    ensures a + (b + c) == a + b + c
  {
  }

  lemma Regroup4(a: string, b: string, c: string, d: string)
    ensures a + (b + c + d) == a + b + c + d
  {
  }

  /** Blanks, a sign, and a decimal numeral that ends where a non-digit begins: the signed value of the numeral. */
  lemma ParseIntSignedDecimal(ws: string, sgn: string, digits: string, rest: string)
    requires IsBlank(ws) && IsSign(sgn) && IsDigits(digits)
    requires rest == [] || !IsDigit(rest[0])
    requires !(|digits| == 1 && digits[0] == '0' && rest != [] && (rest[0] == 'x' || rest[0] == 'X'))
    ensures ParseInt(ws + sgn + digits + rest) == Int(SignValue(sgn) * NumeralValue(digits, 10))
  {
    assert (digits + rest)[0] == digits[0];
    Regroup(ws + sgn, digits, rest);
    SignRead(ws, sgn, digits + rest, ws + sgn + digits + rest);
    DecimalAt(ws + sgn, digits, rest, SignValue(sgn));
  }

  /** `0x` or `0X`, by its characters. */
  predicate IsHexPrefix(x: string) {
    |x| == 2 && x[0] == '0' && (x[1] == 'x' || x[1] == 'X')
  }

  /** Blanks, a sign, `0x` or `0X`, and hexadecimal digits that end where a non-hex character begins: the signed value of the digits. */
  lemma ParseIntSignedHex(ws: string, sgn: string, x: string, digits: string, rest: string)
    requires IsBlank(ws) && IsSign(sgn) && IsHexPrefix(x)
    requires |digits| > 0 && forall k :: 0 <= k < |digits| ==> IsHexDigit(digits[k])
    requires rest == [] || !IsHexDigit(rest[0])
    ensures ParseInt(ws + sgn + x + digits + rest) == Int(SignValue(sgn) * NumeralValue(digits, 16))
  {
    var s := ws + sgn + x + digits + rest;
    var t := x + digits + rest;
    assert t[0] == x[0];
    Regroup4(ws + sgn, x, digits, rest);
    SignRead(ws, sgn, t, s);
    HexAt(ws + sgn, x, digits, rest, SignValue(sgn), s);
  }
}
