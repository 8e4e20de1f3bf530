/**
 * usesUVM and hasClkPort: the two tests server.js runs over the submitted
 * sources before rewriting them. Each is an early-exit loop over the files
 * that asks whether one pattern occurs anywhere in a file's text.
 *
 * Every pattern is given twice. The `...At` predicates read it the way a
 * scanner would, taking each blank run whole; the `...Match` predicates read
 * it as the regular expression does, with every blank run free to end
 * anywhere. The `...Reading` lemmas prove the two agree, and the
 * `...Accepted` lemmas show which texts are detected.
 */
module Detect {
  import opened Text

  // Shared pieces.

  /** `s[i..j]` is a run of blanks: what `\s*` matches there, and `\s+` when `i < j`. */
  predicate Blanks(s: string, i: nat, j: nat) {
    i <= j <= |s| && forall m :: i <= m < j ==> IsSpace(s[m])
  }

  /** `s[i..j]` holds no `)`: what `[^)]*` matches there. */
  predicate NoCloseParen(s: string, i: nat, j: nat) {
    i <= j <= |s| && forall m :: i <= m < j ==> s[m] != ')'
  }

  /** A `\b` at `j`, just after a word character: the text ends there or a non-word character follows. */
  predicate WordEndsAt(s: string, j: nat) {
    j == |s| || (j < |s| && !IsWordChar(s[j]))
  }

  /** A blank run that ends where a word not starting with a blank begins is the run a scan takes. */
  lemma BlanksEndAt(s: string, i: nat, j: nat, p: string)
    requires Blanks(s, i, j) && HasAt(s, j, p)
    requires |p| > 0 && !IsSpace(p[0])
    ensures Span(s, i, IsSpace) == j
  {
    assert s[j] == s[j..j + |p|][0];
    SpanIs(s, i, j, IsSpace);
  }

  /** What a scan takes is a blank run. */
  lemma SpanBlanks(s: string, i: nat)
    requires i <= |s|
    ensures Blanks(s, i, Span(s, i, IsSpace))
  {
  }

  // The UVM test: three patterns, any one of which marks a file as UVM code.

  /** The class names that mark UVM code, each written after `uvm_`. */
  const ClassWords: seq<string> := ["test", "component", "sequence", "driver", "monitor", "scoreboard", "env", "agent"]

  /**
   * The alternatives tried in order at `j`: one of `words`, followed by a word
   * boundary.
   */
  predicate WordAmong(s: string, j: nat, words: seq<string>) {
    words != [] &&
    ((HasAt(s, j, words[0]) && WordEndsAt(s, j + |words[0]|)) || WordAmong(s, j, words[1..]))
  }

  /** `uvm_` and one of the class names at `k`, ending at a word boundary. */
  predicate ClassWordAt(s: string, k: nat) {
    HasAt(s, k, "uvm_") && WordAmong(s, k + 4, ClassWords)
  }

  /** Trying the alternatives in order succeeds exactly when one of them matches. */
  lemma {:induction false} WordAmongReading(s: string, j: nat, words: seq<string>)
    ensures WordAmong(s, j, words) <==> exists w :: w in words && HasAt(s, j, w) && WordEndsAt(s, j + |w|)
    decreases |words|
  {
    if words != [] {
      WordAmongReading(s, j, words[1..]);
      if exists w :: w in words && HasAt(s, j, w) && WordEndsAt(s, j + |w|) {
        var w :| w in words && HasAt(s, j, w) && WordEndsAt(s, j + |w|);
        if w != words[0] {
          assert w in words[1..];
        }
      }
      if WordAmong(s, j, words[1..]) {
        var w :| w in words[1..] && HasAt(s, j, w) && WordEndsAt(s, j + |w|);
        assert w in words;
      }
    }
  }

  /** The first UVM pattern, anywhere in the text. */
  predicate NamesUvmClass(s: string) {
    exists k :: 0 <= k <= |s| && ClassWordAt(s, k)
  }

  /** The second UVM pattern: a component or object registration macro. */
  predicate UsesUtilsMacro(s: string) {
    Contains(s, "`uvm_component_utils") || Contains(s, "`uvm_object_utils")
  }

  /** `extends`, the whole blank run after it, and `uvm_` right after that run. */
  predicate ExtendsAt(s: string, k: nat) {
    HasAt(s, k, "extends") &&
    var j := Span(s, k + 7, IsSpace);
    k + 7 < j && HasAt(s, j, "uvm_")
  }

  /** `extends` at `k`, blanks up to `j`, at least one of them, and `uvm_` at `j`. */
  ghost predicate ExtendsSplit(s: string, k: nat, j: nat) {
    HasAt(s, k, "extends") && k + 7 < j && Blanks(s, k + 7, j) && HasAt(s, j, "uvm_")
  }

  /** The third UVM pattern as the regular expression reads it: `extends`, one or more blanks, `uvm_`. */
  ghost predicate ExtendsMatch(s: string, k: nat) {
    exists j: nat :: ExtendsSplit(s, k, j)
  }

  /** The third UVM pattern, anywhere in the text. */
  predicate ExtendsUvm(s: string) {
    exists k :: 0 <= k <= |s| && ExtendsAt(s, k)
  }

  /** One file's text marks the design as UVM code. */
  predicate UvmSource(s: string) {
    NamesUvmClass(s) || UsesUtilsMacro(s) || ExtendsUvm(s)
  }

  /** Some file marks the design as UVM code. */
  predicate AnyUvm(files: seq<string>) {
    exists i :: 0 <= i < |files| && UvmSource(files[i])
  }

  lemma ExtendsReading(s: string, k: nat)
    ensures ExtendsAt(s, k) <==> ExtendsMatch(s, k)
  {
    if ExtendsMatch(s, k) {
      var j: nat :| ExtendsSplit(s, k, j);
      BlanksEndAt(s, k + 7, j, "uvm_");
    }
    if ExtendsAt(s, k) {
      SpanBlanks(s, k + 7);
      assert ExtendsSplit(s, k, Span(s, k + 7, IsSpace));
    }
  }

  /** A class name after `uvm_`, followed by the end of the text or a non-word character, is detected. */
  lemma ClassWordAccepted(pre: string, w: string, post: string)
    requires w in ClassWords
    requires post == [] || !IsWordChar(post[0])
    ensures UvmSource(pre + "uvm_" + w + post)
  {
    var s := pre + "uvm_" + w + post;
    var k := |pre|;
    assert s[k..k + 4] == "uvm_";
    assert s[k + 4..k + 4 + |w|] == w;
    if post != [] {
      assert s[k + 4 + |w|] == post[0];
    }
    WordAmongReading(s, k + 4, ClassWords);
    assert ClassWordAt(s, k);
  }

  /** A registration macro anywhere in the text is detected. */
  lemma UtilsAccepted(pre: string, isObject: bool, post: string)
    ensures UvmSource(pre + (if isObject then "`uvm_object_utils" else "`uvm_component_utils") + post)
  {
    var m := if isObject then "`uvm_object_utils" else "`uvm_component_utils";
    var s := pre + m + post;
    assert s[|pre|..|pre| + |m|] == m;
    assert HasAt(s, |pre|, m);
  }

  /** `extends`, a non-empty blank run and `uvm_` anywhere in the text is detected. */
  lemma ExtendsAccepted(pre: string, ws: string, post: string)
    requires |ws| > 0 && IsBlank(ws)
    ensures UvmSource(pre + "extends" + ws + "uvm_" + post)
  {
    var s := pre + "extends" + ws + "uvm_" + post;
    var k, j := |pre|, |pre| + 7 + |ws|;
    assert s[k..k + 7] == "extends";
    assert s[j..j + 4] == "uvm_";
    forall m | k + 7 <= m < j
      ensures IsSpace(s[m])
    {
      assert s[m] == ws[m - k - 7];
    }
    assert ExtendsSplit(s, k, j);
    ExtendsReading(s, k);
  }

  /** usesUVM: the files are read in order and the first one that marks UVM code ends the search. */
  method UsesUvm(files: seq<string>) returns (b: bool)
    ensures b == AnyUvm(files)
  {
    for i := 0 to |files|
      invariant forall j :: 0 <= j < i ==> !UvmSource(files[j])
    {
      var src := files[i];
      if NamesUvmClass(src) {
        return true;
      }
      if UsesUtilsMacro(src) {
        return true;
      }
      if ExtendsUvm(src) {
        return true;
      }
    }
    return false;
  }

  // The clock port test: a `tb_top` module whose port list declares an input named `clk...`.

  /** At `c`: `clk`, or `logic`, its whole blank run, then `clk`. */
  predicate ClkAfterBlanks(s: string, c: nat) {
    HasAt(s, c, "clk") ||
    (HasAt(s, c, "logic") &&
     var d := Span(s, c + 5, IsSpace);
     c + 5 < d && HasAt(s, d, "clk"))
  }

  /** At `m`: `input`, its whole blank run, then the clock name, typed `logic` or not. */
  predicate InputClkAt(s: string, m: nat) {
    HasAt(s, m, "input") &&
    var c := Span(s, m + 5, IsSpace);
    m + 5 < c && ClkAfterBlanks(s, c)
  }

  /** From `i` on, an input clock declaration comes before any `)`. */
  predicate ClkInPorts(s: string, i: nat) {
    exists m :: i <= m <= |s| && NoCloseParen(s, i, m) && InputClkAt(s, m)
  }

  /** `module`, its blank run, `tb_top`, its blank run, `(`, then an input clock before any `)`. */
  predicate ClkPortAt(s: string, k: nat) {
    HasAt(s, k, "module") &&
    var a := Span(s, k + 6, IsSpace);
    k + 6 < a && HasAt(s, a, "tb_top") &&
    var b := Span(s, a + 6, IsSpace);
    HasAt(s, b, "(") && ClkInPorts(s, b + 1)
  }

  /** One file's text declares the clock port. */
  predicate ClkPortSource(s: string) {
    exists k :: 0 <= k <= |s| && ClkPortAt(s, k)
  }

  /** Some file declares the clock port. */
  predicate AnyClkPort(files: seq<string>) {
    exists i :: 0 <= i < |files| && ClkPortSource(files[i])
  }

  /** `logic` at `c`, blanks up to `d`, at least one of them, and `clk` at `d`. */
  ghost predicate LogicSplit(s: string, c: nat, d: nat) {
    HasAt(s, c, "logic") && c + 5 < d && Blanks(s, c + 5, d) && HasAt(s, d, "clk")
  }

  /** `input` at `m`, blanks up to `c`, at least one of them, and at `c` the clock name, typed `logic` or not. */
  ghost predicate InputSplit(s: string, m: nat, c: nat) {
    HasAt(s, m, "input") && m + 5 < c && Blanks(s, m + 5, c) &&
    (HasAt(s, c, "clk") || exists d: nat :: LogicSplit(s, c, d))
  }

  /** The port-declaration part as the regular expression reads it. */
  ghost predicate InputMatch(s: string, m: nat) {
    exists c: nat :: InputSplit(s, m, c)
  }

  /** `module` at `k`, blanks up to `a`, `tb_top` at `a`, blanks up to `b` and `(` at `b`. */
  ghost predicate HeaderSplit(s: string, k: nat, a: nat, b: nat) {
    HasAt(s, k, "module") && k + 6 < a && Blanks(s, k + 6, a) && HasAt(s, a, "tb_top") && Blanks(s, a + 6, b) && HasAt(s, b, "(")
  }

  /** The module header as the regular expression reads it, its `(` at `b`. */
  ghost predicate HeaderMatch(s: string, k: nat, b: nat) {
    exists a: nat :: HeaderSplit(s, k, a, b)
  }

  /** The header's `(` at `b`, no `)` after it before `m`, and the input clock at `m`. */
  ghost predicate PortSplit(s: string, k: nat, b: nat, m: nat) {
    HeaderMatch(s, k, b) && NoCloseParen(s, b + 1, m) && InputMatch(s, m)
  }

  /** The whole clock port pattern as the regular expression reads it. */
  ghost predicate ClkPortMatch(s: string, k: nat) {
    exists b: nat, m: nat :: PortSplit(s, k, b, m)
  }

  lemma LogicReading(s: string, c: nat)
    requires HasAt(s, c, "logic")
    ensures (var d := Span(s, c + 5, IsSpace); c + 5 < d && HasAt(s, d, "clk")) <==> exists d: nat :: LogicSplit(s, c, d)
  {
    if exists d: nat :: LogicSplit(s, c, d) {
      var d: nat :| LogicSplit(s, c, d);
      BlanksEndAt(s, c + 5, d, "clk");
    }
    var d := Span(s, c + 5, IsSpace);
    SpanBlanks(s, c + 5);
    if c + 5 < d && HasAt(s, d, "clk") {
      assert LogicSplit(s, c, d);
    }
  }

  lemma InputReading(s: string, m: nat)
    ensures InputClkAt(s, m) <==> InputMatch(s, m)
  {
    if InputMatch(s, m) {
      InputFromMatch(s, m);
    }
    if InputClkAt(s, m) {
      MatchFromInput(s, m);
    }
  }

  lemma InputFromMatch(s: string, m: nat)
    requires InputMatch(s, m)
    ensures InputClkAt(s, m)
  {
    var c: nat :| InputSplit(s, m, c);
    if HasAt(s, c, "clk") {
      BlanksEndAt(s, m + 5, c, "clk");
    } else {
      var d: nat :| LogicSplit(s, c, d);
      BlanksEndAt(s, m + 5, c, "logic");
      LogicReading(s, c);
      assert ClkAfterBlanks(s, c);
    }
  }

  lemma MatchFromInput(s: string, m: nat)
    requires InputClkAt(s, m)
    ensures InputMatch(s, m)
  {
    var c := Span(s, m + 5, IsSpace);
    SpanBlanks(s, m + 5);
    if !HasAt(s, c, "clk") {
      LogicReading(s, c);
    }
    assert InputSplit(s, m, c);
  }

  /** The header the regular expression matches is the one a scan finds. */
  lemma HeaderReading(s: string, k: nat, b: nat)
    requires HeaderMatch(s, k, b)
    ensures HasAt(s, k, "module")
    ensures var a := Span(s, k + 6, IsSpace);
      k + 6 < a && HasAt(s, a, "tb_top") && b == Span(s, a + 6, IsSpace) && HasAt(s, b, "(")
  {
    var a: nat :| HeaderSplit(s, k, a, b);
    BlanksEndAt(s, k + 6, a, "tb_top");
    BlanksEndAt(s, a + 6, b, "(");
  }

  lemma ClkPortReading(s: string, k: nat)
    ensures ClkPortAt(s, k) <==> ClkPortMatch(s, k)
  {
    if ClkPortMatch(s, k) {
      PortFromMatch(s, k);
    }
    if ClkPortAt(s, k) {
      MatchFromPort(s, k);
    }
  }

  lemma PortFromMatch(s: string, k: nat)
    requires ClkPortMatch(s, k)
    ensures ClkPortAt(s, k)
  {
    var b: nat, m: nat :| PortSplit(s, k, b, m);
    HeaderReading(s, k, b);
    InputReading(s, m);
    assert b + 1 <= m <= |s| && NoCloseParen(s, b + 1, m) && InputClkAt(s, m);
  }

  lemma MatchFromPort(s: string, k: nat)
    requires ClkPortAt(s, k)
    ensures ClkPortMatch(s, k)
  {
    var a := Span(s, k + 6, IsSpace);
    var b := Span(s, a + 6, IsSpace);
    SpanBlanks(s, k + 6);
    SpanBlanks(s, a + 6);
    assert HeaderSplit(s, k, a, b);
    var m :| b + 1 <= m <= |s| && NoCloseParen(s, b + 1, m) && InputClkAt(s, m);
    InputReading(s, m);
    assert PortSplit(s, k, b, m);
  }

  /** A `)` after the header and before every `input` closes the port list: the clock port is not found there. */
  lemma ClosedPortList(s: string, k: nat, b: nat, e: nat)
    requires HeaderMatch(s, k, b) && b < e < |s| && s[e] == ')'
    requires forall m :: b + 1 <= m <= e ==> !HasAt(s, m, "input")
    ensures !ClkPortMatch(s, k)
  {
    HeaderReading(s, k, b);
    forall b': nat, m: nat
      ensures !PortSplit(s, k, b', m)
    {
      if HeaderMatch(s, k, b') && NoCloseParen(s, b' + 1, m) {
        HeaderReading(s, k, b');
        assert m <= e;
        assert !HasAt(s, m, "input");
      }
    }
  }

  // Moving a match into a longer text.

  lemma BlanksShift(x: string, y: string, i: nat, j: nat)
    requires Blanks(y, i, j)
    ensures Blanks(x + y, |x| + i, |x| + j)
  {
    forall m | |x| + i <= m < |x| + j
      ensures IsSpace((x + y)[m])
    {
      assert (x + y)[m] == y[m - |x|];
    }
  }

  lemma BlanksExtend(x: string, y: string, i: nat, j: nat)
    requires Blanks(x, i, j)
    ensures Blanks(x + y, i, j)
  {
    forall m | i <= m < j
      ensures IsSpace((x + y)[m])
    {
      assert (x + y)[m] == x[m];
    }
  }

  lemma ParenShift(x: string, y: string, i: nat, j: nat)
    requires NoCloseParen(y, i, j)
    ensures NoCloseParen(x + y, |x| + i, |x| + j)
  {
    forall m | |x| + i <= m < |x| + j
      ensures (x + y)[m] != ')'
    {
      assert (x + y)[m] == y[m - |x|];
    }
  }

  lemma ParenExtend(x: string, y: string, i: nat, j: nat)
    requires NoCloseParen(x, i, j)
    ensures NoCloseParen(x + y, i, j)
  {
    forall m | i <= m < j
      ensures (x + y)[m] != ')'
    {
      assert (x + y)[m] == x[m];
    }
  }

  lemma HeaderShift(x: string, y: string, k: nat, b: nat)
    requires HeaderMatch(y, k, b)
    ensures HeaderMatch(x + y, |x| + k, |x| + b)
  {
    var a: nat :| HeaderSplit(y, k, a, b);
    HasAtRight(x, y, k, "module");
    HasAtRight(x, y, a, "tb_top");
    HasAtRight(x, y, b, "(");
    BlanksShift(x, y, k + 6, a);
    BlanksShift(x, y, a + 6, b);
    assert HeaderSplit(x + y, |x| + k, |x| + a, |x| + b);
  }

  lemma HeaderExtend(x: string, y: string, k: nat, b: nat)
    requires HeaderMatch(x, k, b)
    ensures HeaderMatch(x + y, k, b)
  {
    var a: nat :| HeaderSplit(x, k, a, b);
    HasAtLeft(x, y, k, "module");
    HasAtLeft(x, y, a, "tb_top");
    HasAtLeft(x, y, b, "(");
    BlanksExtend(x, y, k + 6, a);
    BlanksExtend(x, y, a + 6, b);
    assert HeaderSplit(x + y, k, a, b);
  }

  lemma InputShift(x: string, y: string, m: nat)
    requires InputMatch(y, m)
    ensures InputMatch(x + y, |x| + m)
  {
    var c: nat :| InputSplit(y, m, c);
    HasAtRight(x, y, m, "input");
    BlanksShift(x, y, m + 5, c);
    if HasAt(y, c, "clk") {
      HasAtRight(x, y, c, "clk");
    } else {
      var d: nat :| LogicSplit(y, c, d);
      HasAtRight(x, y, c, "logic");
      BlanksShift(x, y, c + 5, d);
      HasAtRight(x, y, d, "clk");
      assert LogicSplit(x + y, |x| + c, |x| + d);
    }
    assert InputSplit(x + y, |x| + m, |x| + c);
  }

  lemma InputExtend(x: string, y: string, m: nat)
    requires InputMatch(x, m)
    ensures InputMatch(x + y, m)
  {
    var c: nat :| InputSplit(x, m, c);
    HasAtLeft(x, y, m, "input");
    BlanksExtend(x, y, m + 5, c);
    if HasAt(x, c, "clk") {
      HasAtLeft(x, y, c, "clk");
    } else {
      var d: nat :| LogicSplit(x, c, d);
      HasAtLeft(x, y, c, "logic");
      BlanksExtend(x, y, c + 5, d);
      HasAtLeft(x, y, d, "clk");
      assert LogicSplit(x + y, c, d);
    }
    assert InputSplit(x + y, m, c);
  }

  // The texts the clock port test accepts.

  /** `module`, blanks, `tb_top`, blanks and `(`. */
  function HeaderText(ws1: string, ws2: string): string {
    "module" + ws1 + "tb_top" + ws2 + "("
  }

  /** `input`, blanks, then `clk`, or `logic`, blanks and `clk`. */
  function InputText(ws3: string, typed: bool, ws4: string): string {
    "input" + ws3 + (if typed then "logic" + ws4 else "") + "clk"
  }

  lemma HeaderAccepted(ws1: string, ws2: string)
    requires |ws1| > 0 && IsBlank(ws1) && IsBlank(ws2)
    ensures HeaderMatch(HeaderText(ws1, ws2), 0, |HeaderText(ws1, ws2)| - 1)
  {
    var h := HeaderText(ws1, ws2);
    var a := 6 + |ws1|;
    var b := a + 6 + |ws2|;
    assert h[..6] == "module";
    assert h[a..a + 6] == "tb_top";
    assert h[b..b + 1] == "(";
    forall i | 6 <= i < a ensures IsSpace(h[i]) { assert h[i] == ws1[i - 6]; }
    forall i | a + 6 <= i < b ensures IsSpace(h[i]) { assert h[i] == ws2[i - a - 6]; }
    assert HeaderSplit(h, 0, a, b);
  }

  lemma InputAccepted(ws3: string, typed: bool, ws4: string)
    requires |ws3| > 0 && IsBlank(ws3) && (typed ==> |ws4| > 0 && IsBlank(ws4))
    ensures InputMatch(InputText(ws3, typed, ws4), 0)
  {
    var t := InputText(ws3, typed, ws4);
    var c := 5 + |ws3|;
    assert t[..5] == "input";
    forall i | 5 <= i < c ensures IsSpace(t[i]) { assert t[i] == ws3[i - 5]; }
    if typed {
      var d := c + 5 + |ws4|;
      assert t[c..c + 5] == "logic";
      assert t[d..d + 3] == "clk";
      forall i | c + 5 <= i < d ensures IsSpace(t[i]) { assert t[i] == ws4[i - c - 5]; }
      assert LogicSplit(t, c, d);
    } else {
      assert t[c..c + 3] == "clk";
    }
    assert InputSplit(t, 0, c);
  }

  /**
   * A `tb_top` header followed, before any `)`, by an input clock declaration
   * is detected, whatever comes before it, inside the port list or after it.
   */
  lemma ClkPortAccepted(pre: string, ws1: string, ws2: string, ports: string, ws3: string, typed: bool, ws4: string, post: string)
    requires |ws1| > 0 && IsBlank(ws1) && IsBlank(ws2)
    requires |ws3| > 0 && IsBlank(ws3) && (typed ==> |ws4| > 0 && IsBlank(ws4))
    requires ')' !in ports
    ensures ClkPortSource(pre + HeaderText(ws1, ws2) + ports + InputText(ws3, typed, ws4) + post)
  {
    var h, t := HeaderText(ws1, ws2), InputText(ws3, typed, ws4);
    var x1 := pre + h;
    var x2 := x1 + ports;
    var x3 := x2 + t;
    var s := x3 + post;
    var k, b := |pre|, |pre| + |h| - 1;
    HeaderAccepted(ws1, ws2);
    HeaderShift(pre, h, 0, |h| - 1);
    HeaderExtend(x1, ports, k, b);
    HeaderExtend(x2, t, k, b);
    HeaderExtend(x3, post, k, b);
    assert NoCloseParen(ports, 0, |ports|);
    ParenShift(x1, ports, 0, |ports|);
    ParenExtend(x2, t, |x1|, |x2|);
    ParenExtend(x3, post, |x1|, |x2|);
    InputAccepted(ws3, typed, ws4);
    InputShift(x2, t, 0);
    InputExtend(x3, post, |x2|);
    assert PortSplit(s, k, b, |x2|);
    ClkPortReading(s, k);
  }

  /** hasClkPort: the files are read in order and the first one that declares the port ends the search. */
  method HasClkPort(files: seq<string>) returns (b: bool)
    ensures b == AnyClkPort(files)
  {
    for i := 0 to |files|
      invariant forall j :: 0 <= j < i ==> !ClkPortSource(files[j])
    {
      if ClkPortSource(files[i]) {
        return true;
      }
    }
    return false;
  }
}
