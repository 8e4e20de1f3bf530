/**
 * processCode: the rewriting applied to every submitted SystemVerilog file
 * before it is compiled.
 *
 *   1. a `$dumpfile(...);` or `$dumpvars(...);` statement that fills its line
 *      becomes a comment, since the harness opens its own trace;
 *   2. a line that only includes `uvm_macros.svh` or only imports `uvm_pkg::*`
 *      becomes empty (in UVM mode the include goes first, otherwise the import);
 *   3. in UVM mode the two-line preamble (that include and that import) is put
 *      back once: after the first line that begins with `` `timescale `` and is
 *      followed by a line break, or, when the text never mentions
 *      `` `timescale ``, in front of everything.
 *
 * The model works on the lines of the file, as `split('\n')` gives them, so
 * each pattern is a test on one line.
 */
module Rewrite {
  import opened Wrappers
  import opened Text

  const DumpfileNote: string := "// $dumpfile removed by backend"
  const DumpvarsNote: string := "// $dumpvars removed by backend"
  /** The line `` `include "uvm_macros.svh" ``. */
  const MacrosInclude: string := IncludeText(" ")
  /** The line `import uvm_pkg::*;`. */
  const PkgImport: string := ImportText(" ", "", "", "")

  /** The two lines a UVM design gets in front of its code. */
  const Preamble: seq<string> := [MacrosInclude, PkgImport]

  // Line patterns. Each one is anchored at both ends of the line and allows
  // blanks around the statement, so it is tested on the trimmed line.

  predicate NotCloseParen(c: char) { c != ')' }

  /** Optional blanks, then `;`, then nothing. */
  predicate SemiTail(y: string) {
    var d := Span(y, 0, IsSpace);
    d + 1 == |y| && y[d] == ';'
  }

  /** What follows a task name: optional blanks, `(`, an argument text without `)`, `)`, then SemiTail. */
  predicate CallTail(u: string) {
    var a := Span(u, 0, IsSpace);
    a < |u| && u[a] == '(' &&
    (var b := Span(u, a + 1, NotCloseParen);
     b < |u| && SemiTail(u[b + 1..]))
  }

  /** The line holds nothing but a call of the system task `task` (such as `$dumpfile`) and its `;`. */
  predicate IsDumpCall(line: string, task: string) {
    var t := Trim(line);
    StartsWith(t, task) && CallTail(t[|task|..])
  }

  /** A non-empty blank run followed by exactly `rest`. */
  predicate SpacedTail(u: string, rest: string) {
    var a := Span(u, 0, IsSpace);
    0 < a && u[a..] == rest
  }

  /** The line holds nothing but the include of `"uvm_macros.svh"`. */
  predicate IsUvmInclude(line: string) {
    var t := Trim(line);
    StartsWith(t, "`include") && SpacedTail(t[8..], "\"uvm_macros.svh\"")
  }

  /** Optional blanks, `*`, then SemiTail. */
  predicate StarTail(x: string) {
    var c := Span(x, 0, IsSpace);
    c < |x| && x[c] == '*' && SemiTail(x[c + 1..])
  }

  /** Optional blanks, `::`, then StarTail. */
  predicate ScopeTail(w: string) {
    var b := Span(w, 0, IsSpace);
    HasAt(w, b, "::") && StarTail(w[b + 2..])
  }

  /** A non-empty blank run, `uvm_pkg`, then ScopeTail. */
  predicate PkgTail(u: string) {
    var a := Span(u, 0, IsSpace);
    0 < a && StartsWith(u[a..], "uvm_pkg") && ScopeTail(u[a + 7..])
  }

  /** The line holds nothing but the wildcard import of `uvm_pkg`. */
  predicate IsUvmImport(line: string) {
    var t := Trim(line);
    StartsWith(t, "import") && PkgTail(t[6..])
  }

  /** A line none of the four patterns touches. */
  predicate Plain(line: string) {
    !IsDumpfileCall(line) && !IsDumpvarsCall(line) && !IsUvmInclude(line) && !IsUvmImport(line)
  }

  // Which lines each pattern accepts.

  /** A blank run in front of a part that does not start with a blank is exactly what Span skips. */
  lemma BlankPrefix(ws: string, rest: string)
    requires IsBlank(ws) && (rest == [] || !IsSpace(rest[0]))
    ensures Span(ws + rest, 0, IsSpace) == |ws|
    ensures (ws + rest)[|ws|..] == rest
  {
    var s := ws + rest;
    assert forall k :: 0 <= k < |ws| ==> s[k] == ws[k];
    assert |ws| == |s| || s[|ws|] == rest[0];
    SpanIs(s, 0, |ws|, IsSpace);
  }

  lemma SemiAccepted(ws: string)
    requires IsBlank(ws)
    ensures SemiTail(ws + ";")
  {
    BlankPrefix(ws, ";");
  }

  lemma StarAccepted(ws1: string, ws2: string)
    requires IsBlank(ws1) && IsBlank(ws2)
    ensures StarTail(ws1 + ("*" + (ws2 + ";")))
  {
    BlankPrefix(ws1, "*" + (ws2 + ";"));
    SemiAccepted(ws2);
    assert ("*" + (ws2 + ";"))[1..] == ws2 + ";";
  }

  lemma ScopeAccepted(ws0: string, ws1: string, ws2: string)
    requires IsBlank(ws0) && IsBlank(ws1) && IsBlank(ws2)
    ensures ScopeTail(ws0 + ("::" + (ws1 + ("*" + (ws2 + ";")))))
  {
    var rest := ws1 + ("*" + (ws2 + ";"));
    var w := ws0 + ("::" + rest);
    BlankPrefix(ws0, "::" + rest);
    assert w[|ws0|..] == "::" + rest;
    assert w[|ws0|..|ws0| + 2] == "::";
    assert w[|ws0| + 2..] == rest;
    StarAccepted(ws1, ws2);
  }

  /** The text of a wildcard import of `uvm_pkg` with the given blank runs between its parts. */
  function ImportText(ws1: string, ws2: string, ws3: string, ws4: string): string {
    "import" + (ws1 + ("uvm_pkg" + (ws2 + ("::" + (ws3 + ("*" + (ws4 + ";")))))))
  }

  lemma PkgAccepted(ws1: string, ws2: string, ws3: string, ws4: string)
    requires |ws1| > 0 && IsBlank(ws1) && IsBlank(ws2) && IsBlank(ws3) && IsBlank(ws4)
    ensures PkgTail(ws1 + ("uvm_pkg" + (ws2 + ("::" + (ws3 + ("*" + (ws4 + ";")))))))
  {
    var scope := ws2 + ("::" + (ws3 + ("*" + (ws4 + ";"))));
    var u := ws1 + ("uvm_pkg" + scope);
    BlankPrefix(ws1, "uvm_pkg" + scope);
    assert u[|ws1|..] == "uvm_pkg" + scope;
    assert u[|ws1|..][..7] == "uvm_pkg";
    assert u[|ws1| + 7..] == scope;
    ScopeAccepted(ws2, ws3, ws4);
  }

  /** A line whose trimmed text is a wildcard import of `uvm_pkg` is recognised. */
  lemma ImportTrimmed(line: string, ws1: string, ws2: string, ws3: string, ws4: string)
    requires |ws1| > 0 && IsBlank(ws1) && IsBlank(ws2) && IsBlank(ws3) && IsBlank(ws4)
    requires Trim(line) == ImportText(ws1, ws2, ws3, ws4)
    ensures IsUvmImport(line)
  {
    var core := ImportText(ws1, ws2, ws3, ws4);
    var tail := ws1 + ("uvm_pkg" + (ws2 + ("::" + (ws3 + ("*" + (ws4 + ";"))))));
    assert core == "import" + tail;
    assert core[..6] == "import" && core[6..] == tail;
    PkgAccepted(ws1, ws2, ws3, ws4);
  }

  lemma ImportEnds(ws1: string, ws2: string, ws3: string, ws4: string)
    ensures var core := ImportText(ws1, ws2, ws3, ws4); |core| > 0 && core[0] == 'i' && core[|core| - 1] == ';'
  {
  }

  /** Every wildcard import of `uvm_pkg` alone on its line is recognised, however it is spaced. */
  lemma ImportAccepted(pad0: string, ws1: string, ws2: string, ws3: string, ws4: string, pad1: string)
    requires IsBlank(pad0) && IsBlank(pad1)
    requires |ws1| > 0 && IsBlank(ws1) && IsBlank(ws2) && IsBlank(ws3) && IsBlank(ws4)
    ensures IsUvmImport(pad0 + ImportText(ws1, ws2, ws3, ws4) + pad1)
  {
    ImportEnds(ws1, ws2, ws3, ws4);
    TrimPadded(pad0, ImportText(ws1, ws2, ws3, ws4), pad1);
    ImportTrimmed(pad0 + ImportText(ws1, ws2, ws3, ws4) + pad1, ws1, ws2, ws3, ws4);
  }

  lemma ImportBare(ws1: string, ws2: string, ws3: string, ws4: string)
    requires |ws1| > 0 && IsBlank(ws1) && IsBlank(ws2) && IsBlank(ws3) && IsBlank(ws4)
    ensures IsUvmImport(ImportText(ws1, ws2, ws3, ws4))
  {
    ImportEnds(ws1, ws2, ws3, ws4);
    TrimBare(ImportText(ws1, ws2, ws3, ws4));
    ImportTrimmed(ImportText(ws1, ws2, ws3, ws4), ws1, ws2, ws3, ws4);
  }

  /** The text of the include of `"uvm_macros.svh"` with the given blank run after the directive. */
  function IncludeText(ws: string): string {
    "`include" + (ws + "\"uvm_macros.svh\"")
  }

  /** A line whose trimmed text is the include of `"uvm_macros.svh"` is recognised. */
  lemma IncludeTrimmed(line: string, ws: string)
    requires |ws| > 0 && IsBlank(ws) && Trim(line) == IncludeText(ws)
    ensures IsUvmInclude(line)
  {
    var core := IncludeText(ws);
    assert core[..8] == "`include" && core[8..] == ws + "\"uvm_macros.svh\"";
    BlankPrefix(ws, "\"uvm_macros.svh\"");
  }

  lemma IncludeEnds(ws: string)
    ensures var core := IncludeText(ws); |core| > 0 && core[0] == '`' && core[|core| - 1] == '"'
  {
  }

  /** Every include of `"uvm_macros.svh"` alone on its line is recognised, however it is spaced. */
  lemma IncludeAccepted(pad0: string, ws: string, pad1: string)
    requires IsBlank(pad0) && IsBlank(pad1) && |ws| > 0 && IsBlank(ws)
    ensures IsUvmInclude(pad0 + IncludeText(ws) + pad1)
  {
    IncludeEnds(ws);
    TrimPadded(pad0, IncludeText(ws), pad1);
    IncludeTrimmed(pad0 + IncludeText(ws) + pad1, ws);
  }

  lemma IncludeBare(ws: string)
    requires |ws| > 0 && IsBlank(ws)
    ensures IsUvmInclude(IncludeText(ws))
  {
    IncludeEnds(ws);
    TrimBare(IncludeText(ws));
    IncludeTrimmed(IncludeText(ws), ws);
  }

  /** The text of a call of `task` with argument text `args`, blank runs around the parentheses and before `;`. */
  function CallText(task: string, ws1: string, args: string, ws2: string): string {
    task + (ws1 + ("(" + (args + (")" + (ws2 + ";")))))
  }

  lemma CallTailAccepted(ws1: string, args: string, ws2: string)
    requires IsBlank(ws1) && IsBlank(ws2) && forall k :: 0 <= k < |args| ==> args[k] != ')'
    ensures CallTail(ws1 + ("(" + (args + (")" + (ws2 + ";")))))
  {
    var close := ")" + (ws2 + ";");
    var u := ws1 + ("(" + (args + close));
    var a := |ws1|;
    BlankPrefix(ws1, "(" + (args + close));
    assert u[a] == '(';
    assert forall k :: a + 1 <= k < a + 1 + |args| ==> u[k] == args[k - a - 1];
    assert u[a + 1 + |args|] == ')';
    SpanIs(u, a + 1, a + 1 + |args|, NotCloseParen);
    assert u[a + 1 + |args| + 1..] == ws2 + ";";
    SemiAccepted(ws2);
  }

  /** Every call of a system task alone on its line, with an argument text free of `)`, is recognised. */
  lemma DumpCallAccepted(pad0: string, task: string, ws1: string, args: string, ws2: string, pad1: string)
    requires IsBlank(pad0) && IsBlank(pad1) && IsBlank(ws1) && IsBlank(ws2)
    requires |task| > 0 && !IsSpace(task[0])
    requires forall k :: 0 <= k < |args| ==> args[k] != ')'
    ensures IsDumpCall(pad0 + CallText(task, ws1, args, ws2) + pad1, task)
  {
    var tail := ws1 + ("(" + (args + (")" + (ws2 + ";"))));
    var core := CallText(task, ws1, args, ws2);
    assert core == task + tail;
    assert core[0] == task[0] && core[|core| - 1] == ';';
    TrimPadded(pad0, core, pad1);
    assert core[..|task|] == task && core[|task|..] == tail;
    CallTailAccepted(ws1, args, ws2);
  }

  // What the accepted lines look like: each pattern accepts nothing but the lines above.

  /** Where SemiTail finds the `;`: after a blank run, at the end. */
  lemma SemiRead(y: string) returns (ws: string)
    requires SemiTail(y)
    ensures IsBlank(ws) && y == ws + ";"
  {
    var d := Span(y, 0, IsSpace);
    ws := y[..d];
    assert y == y[..d] + y[d..];
  }

  /** Where StarTail finds the `*`: after a blank run. */
  lemma StarRead(x: string) returns (ws: string, y: string)
    requires StarTail(x)
    ensures IsBlank(ws) && SemiTail(y) && x == ws + ("*" + y)
  {
    var c := Span(x, 0, IsSpace);
    ws, y := x[..c], x[c + 1..];
    assert x[c..] == [x[c]] + y;
    assert x == x[..c] + x[c..];
  }

  /** Where ScopeTail finds the `::`: after a blank run. */
  lemma ScopeRead(w: string) returns (ws: string, x: string)
    requires ScopeTail(w)
    ensures IsBlank(ws) && StarTail(x) && w == ws + ("::" + x)
  {
    var b := Span(w, 0, IsSpace);
    ws, x := w[..b], w[b + 2..];
    HasAtSplit(w, b, "::");
  }

  /** Where PkgTail finds `uvm_pkg`: after a non-empty blank run. */
  lemma PkgRead(u: string) returns (ws: string, w: string)
    requires PkgTail(u)
    ensures |ws| > 0 && IsBlank(ws) && ScopeTail(w) && u == ws + ("uvm_pkg" + w)
  {
    var a := PkgCut(u);
    ws, w := u[..a], u[a + 7..];
    HasAtSplit(u, a, "uvm_pkg");
  }

  /** Where PkgTail finds `uvm_pkg`. */
  lemma PkgCut(u: string) returns (a: nat)
    requires PkgTail(u)
    ensures 0 < a && HasAt(u, a, "uvm_pkg") && IsBlank(u[..a]) && ScopeTail(u[a + 7..])
  {
    a := Span(u, 0, IsSpace);
    assert u[a..][..7] == u[a..a + 7];
  }

  /** `line` is a wildcard import of `uvm_pkg` spaced by these blank runs, with blanks around it. */
  ghost predicate ImportLine(line: string, pad0: string, ws1: string, ws2: string, ws3: string, ws4: string, pad1: string) {
    && IsBlank(pad0) && IsBlank(pad1)
    && |ws1| > 0 && IsBlank(ws1) && IsBlank(ws2) && IsBlank(ws3) && IsBlank(ws4)
    && line == pad0 + ImportText(ws1, ws2, ws3, ws4) + pad1
  }

  /** A line the import pattern accepts is a wildcard import of `uvm_pkg`, spaced some way, with blanks around it. */
  lemma ImportRead(line: string)
    requires IsUvmImport(line)
    ensures exists pad0, ws1, ws2, ws3, ws4, pad1 :: ImportLine(line, pad0, ws1, ws2, ws3, ws4, pad1)
  {
    var t := Trim(line);
    var ws1, ws2, ws3, ws4 := ImportCore(t);
    var pad0, pad1 := TrimSplits(line);
    assert ImportLine(line, pad0, ws1, ws2, ws3, ws4, pad1);
  }

  /** Where SpacedTail finds `rest`: after a non-empty blank run. */
  lemma SpacedRead(u: string, rest: string) returns (ws: string)
    requires SpacedTail(u, rest)
    ensures |ws| > 0 && IsBlank(ws) && u == ws + rest
  {
    var a := Span(u, 0, IsSpace);
    ws := u[..a];
    assert u == u[..a] + u[a..];
  }

  /** The blank runs of the trimmed text the import pattern accepts. */
  lemma ImportCore(t: string) returns (ws1: string, ws2: string, ws3: string, ws4: string)
    requires StartsWith(t, "import") && PkgTail(t[6..])
    ensures |ws1| > 0 && IsBlank(ws1) && IsBlank(ws2) && IsBlank(ws3) && IsBlank(ws4)
    ensures t == ImportText(ws1, ws2, ws3, ws4)
  {
    var w, x, y;
    ws1, w := PkgRead(t[6..]);
    ws2, x := ScopeRead(w);
    ws3, y := StarRead(x);
    ws4 := SemiRead(y);
    HasAtSplit(t, 0, "import");
  }

  /** `line` is the include of `"uvm_macros.svh"` spaced by `ws`, with blanks around it. */
  ghost predicate IncludeLine(line: string, pad0: string, ws: string, pad1: string) {
    IsBlank(pad0) && IsBlank(pad1) && |ws| > 0 && IsBlank(ws) && line == pad0 + IncludeText(ws) + pad1
  }

  /** A line the include pattern accepts is the include of `"uvm_macros.svh"`, spaced some way, with blanks around it. */
  lemma IncludeRead(line: string)
    requires IsUvmInclude(line)
    ensures exists pad0, ws, pad1 :: IncludeLine(line, pad0, ws, pad1)
  {
    var t := Trim(line);
    var u := t[8..];
    var ws := SpacedRead(u, "\"uvm_macros.svh\"");
    assert t == IncludeText(ws) by {
      assert t == t[..8] + u;
    }
    var pad0, pad1 := TrimSplits(line);
    assert IncludeLine(line, pad0, ws, pad1);
  }

  /** `u` is a blank run, `(`, an argument text free of `)`, `)`, then SemiTail. */
  ghost predicate CallPieces(u: string, ws1: string, args: string, rest: string) {
    && IsBlank(ws1) && (forall k :: 0 <= k < |args| ==> args[k] != ')') && SemiTail(rest)
    && u == ws1 + ("(" + (args + (")" + rest)))
  }

  lemma CallTailRead(u: string)
    requires CallTail(u)
    ensures exists ws1, args, rest :: CallPieces(u, ws1, args, rest)
  {
    var a, b := CallCut(u);
    CutAround(u, a, b);
    assert CallPieces(u, u[..a], u[a + 1..b], u[b + 1..]);
  }

  /** Where CallTail finds the parentheses. */
  lemma CallCut(u: string) returns (a: nat, b: nat)
    requires CallTail(u)
    ensures a < b < |u| && u[a] == '(' && u[b] == ')' && IsBlank(u[..a]) && SemiTail(u[b + 1..])
    ensures forall k :: a + 1 <= k < b ==> u[k] != ')'
  {
    a := Span(u, 0, IsSpace);
    b := Span(u, a + 1, NotCloseParen);
    assert u[b] == ')' by {
      assert !NotCloseParen(u[b]);
    }
    assert forall k :: a + 1 <= k < b ==> NotCloseParen(u[k]);
  }

  /** A text cut around a `(` and a later `)` into five pieces. */
  lemma CutAround(u: string, a: nat, b: nat)
    requires a < b < |u| && u[a] == '(' && u[b] == ')'
    ensures u == u[..a] + ("(" + (u[a + 1..b] + (")" + u[b + 1..])))
  {
    assert u[b..] == [u[b]] + u[b + 1..];
    assert u[a + 1..] == u[a + 1..b] + u[b..];
    assert u[a..] == [u[a]] + u[a + 1..];
    assert u == u[..a] + u[a..];
  }

  /** `line` is a call of `task` with argument text `args`, spaced by these blank runs, with blanks around it. */
  ghost predicate CallLine(line: string, task: string, pad0: string, ws1: string, args: string, ws2: string, pad1: string) {
    && IsBlank(pad0) && IsBlank(pad1) && IsBlank(ws1) && IsBlank(ws2)
    && (forall k :: 0 <= k < |args| ==> args[k] != ')')
    && line == pad0 + CallText(task, ws1, args, ws2) + pad1
  }

  /** A line a dump pattern accepts is a call of that task with an argument text free of `)`, with blanks around it. */
  lemma DumpCallRead(line: string, task: string)
    requires IsDumpCall(line, task)
    ensures exists pad0, ws1, args, ws2, pad1 :: CallLine(line, task, pad0, ws1, args, ws2, pad1)
  {
    var t := Trim(line);
    var u := t[|task|..];
    CallTailRead(u);
    var ws1, args, y :| CallPieces(u, ws1, args, y);
    var ws2 := SemiRead(y);
    assert t == task + u by {
      assert t == t[..|task|] + t[|task|..];
    }
    assert t == CallText(task, ws1, args, ws2);
    var pad0, pad1 := TrimSplits(line);
    assert CallLine(line, task, pad0, ws1, args, ws2, pad1);
  }

  // Which lines no pattern touches.

  /** A line whose trimmed form starts with none of the first characters of the patterns is plain. */
  lemma PlainByFirst(line: string)
    requires Trim(line) == [] || (Trim(line)[0] != '$' && Trim(line)[0] != '`' && Trim(line)[0] != 'i')
    ensures Plain(line)
  {
    var t := Trim(line);
    NotStartsWith(t, "$dumpfile");
    NotStartsWith(t, "$dumpvars");
    NotStartsWith(t, "`include");
    NotStartsWith(t, "import");
  }

  lemma EmptyIsPlain()
    ensures Plain("")
  {
    assert Trim("") == [];
    PlainByFirst("");
  }

  lemma NotesArePlain()
    ensures Plain(DumpfileNote) && Plain(DumpvarsNote)
  {
    TrimBare(DumpfileNote);
    PlainByFirst(DumpfileNote);
    TrimBare(DumpvarsNote);
    PlainByFirst(DumpvarsNote);
  }

  /** The preamble's include is recognised as the include. */
  lemma MacrosIncludeRecognised()
    ensures IsUvmInclude(MacrosInclude)
  {
    IncludeBare(" ");
  }

  /** The preamble's include is no call and no import. */
  lemma MacrosIncludeOnly()
    ensures !IsDumpfileCall(MacrosInclude) && !IsDumpvarsCall(MacrosInclude) && !IsUvmImport(MacrosInclude)
  {
    TrimBare(MacrosInclude);
    NotStartsWith(MacrosInclude, "$dumpfile");
    NotStartsWith(MacrosInclude, "$dumpvars");
    NotStartsWith(MacrosInclude, "import");
  }

  /** The preamble's import is recognised as the import. */
  lemma PkgImportRecognised()
    ensures IsUvmImport(PkgImport)
  {
    ImportBare(" ", "", "", "");
  }

  /** The preamble's import is no call and no include. */
  lemma PkgImportOnly()
    ensures !IsDumpfileCall(PkgImport) && !IsDumpvarsCall(PkgImport) && !IsUvmInclude(PkgImport)
  {
    TrimBare(PkgImport);
    NotStartsWith(PkgImport, "$dumpfile");
    NotStartsWith(PkgImport, "$dumpvars");
    NotStartsWith(PkgImport, "`include");
  }

  /** Trimmed lines that start with different system task names cannot both be calls. */
  lemma DumpCallsExclusive(line: string)
    ensures !(IsDumpfileCall(line) && IsDumpvarsCall(line))
  {
    var t := Trim(line);
    if StartsWith(t, "$dumpfile") {
      assert t[..9][5] == 'f';
      assert t[..9] != "$dumpvars";
    }
  }

  // The passes over the lines.

  predicate IsDumpfileCall(line: string) { IsDumpCall(line, "$dumpfile") }

  predicate IsDumpvarsCall(line: string) { IsDumpCall(line, "$dumpvars") }

  /**
   * One `.replace` whose pattern is anchored at both ends of a line, with the
   * global and multi-line flags: every line the pattern matches becomes `replacement`,
   * and every other line stays as it is.
   */
  function ReplaceLines(lines: seq<string>, matches: string -> bool, replacement: string): (r: seq<string>)
    ensures |r| == |lines|
  {
    if lines == [] then []
    else [if matches(lines[0]) then replacement else lines[0]] + ReplaceLines(lines[1..], matches, replacement)
  }

  /** Each line of a pass is the replacement where the pattern matched the line, and the line itself elsewhere. */
  lemma {:induction false} ReplaceAt(lines: seq<string>, matches: string -> bool, replacement: string, i: nat)
    requires i < |lines|
    ensures ReplaceLines(lines, matches, replacement)[i] == if matches(lines[i]) then replacement else lines[i]
    decreases i
  {
    if i > 0 {
      ReplaceAt(lines[1..], matches, replacement, i - 1);
      assert lines[1..][i - 1] == lines[i];
    }
  }

  /** A pass over two texts put together is the two passes put together. */
  lemma {:induction false} ReplaceAppend(a: seq<string>, b: seq<string>, matches: string -> bool, replacement: string)
    ensures ReplaceLines(a + b, matches, replacement) == ReplaceLines(a, matches, replacement) + ReplaceLines(b, matches, replacement)
    decreases |a|
  {
    if a == [] {
      assert a + b == b;
    } else {
      assert (a + b)[0] == a[0];
      assert (a + b)[1..] == a[1..] + b;
      ReplaceAppend(a[1..], b, matches, replacement);
    }
  }

  /** A pass whose pattern matches no line changes nothing. */
  lemma {:induction false} ReplaceNone(lines: seq<string>, matches: string -> bool, replacement: string)
    requires forall i :: 0 <= i < |lines| ==> !matches(lines[i])
    ensures ReplaceLines(lines, matches, replacement) == lines
    decreases |lines|
  {
    if lines != [] {
      assert forall i :: 0 <= i < |lines| - 1 ==> lines[1..][i] == lines[i + 1];
      ReplaceNone(lines[1..], matches, replacement);
    }
  }

  /** The two dump passes and the two strip passes, in the order each mode applies them. */
  function CleanLines(lines: seq<string>, uvm: bool): (r: seq<string>)
    ensures |r| == |lines|
  {
    var d := ReplaceLines(ReplaceLines(lines, IsDumpfileCall, DumpfileNote), IsDumpvarsCall, DumpvarsNote);
    if uvm then ReplaceLines(ReplaceLines(d, IsUvmInclude, ""), IsUvmImport, "")
    else ReplaceLines(ReplaceLines(d, IsUvmImport, ""), IsUvmInclude, "")
  }

  /**
   * What the passes make of one line: the result is plain; a plain line is
   * kept; a dump call becomes its note; an include-only or import-only line
   * becomes empty.
   */
  lemma CleanLineAt(lines: seq<string>, uvm: bool, i: nat)
    requires i < |lines|
    ensures var line, r := lines[i], CleanLines(lines, uvm)[i];
      && Plain(r)
      && (Plain(line) ==> r == line)
      && (IsDumpfileCall(line) ==> r == DumpfileNote)
      && (IsDumpvarsCall(line) ==> r == DumpvarsNote)
      && (IsUvmInclude(line) || IsUvmImport(line) ==> IsDumpfileCall(line) || IsDumpvarsCall(line) || r == "")
  {
    NotesArePlain();
    EmptyIsPlain();
    DumpCallsExclusive(lines[i]);
    var d1 := ReplaceLines(lines, IsDumpfileCall, DumpfileNote);
    var d2 := ReplaceLines(d1, IsDumpvarsCall, DumpvarsNote);
    ReplaceAt(lines, IsDumpfileCall, DumpfileNote, i);
    ReplaceAt(d1, IsDumpvarsCall, DumpvarsNote, i);
    assert !IsDumpfileCall(d2[i]) && !IsDumpvarsCall(d2[i]);
    if uvm {
      ReplaceAt(d2, IsUvmInclude, "", i);
      ReplaceAt(ReplaceLines(d2, IsUvmInclude, ""), IsUvmImport, "", i);
    } else {
      ReplaceAt(d2, IsUvmImport, "", i);
      ReplaceAt(ReplaceLines(d2, IsUvmImport, ""), IsUvmInclude, "", i);
    }
  }

  /** The two modes strip includes and imports in opposite orders, with the same result. */
  lemma ModesAgree(lines: seq<string>)
    ensures CleanLines(lines, true) == CleanLines(lines, false)
  {
    forall i | 0 <= i < |lines|
      ensures CleanLines(lines, true)[i] == CleanLines(lines, false)[i]
    {
      CleanLineAt(lines, true, i);
      CleanLineAt(lines, false, i);
    }
  }

  /** Every line after the passes is plain. */
  lemma CleanLinesPlain(lines: seq<string>, uvm: bool)
    ensures AllPlain(CleanLines(lines, uvm))
  {
    forall i | 0 <= i < |lines|
      ensures Plain(CleanLines(lines, uvm)[i])
    {
      CleanLineAt(lines, uvm, i);
    }
  }

  // Placing the preamble.

  const Timescale: string := "`timescale"

  /** The test on the whole text for a `` `timescale `` anywhere, stated on its lines. */
  predicate MentionsTimescale(lines: seq<string>) {
    exists i :: 0 <= i < |lines| && Contains(lines[i], Timescale)
  }

  /**
   * The first line, from index `from` on, that begins with `` `timescale `` and
   * is followed by a line break (so not the last line), if there is one.
   */
  function FirstTimescaleLine(lines: seq<string>, from: nat): (k: Option<nat>)
    requires from <= |lines|
    ensures k.Some? ==> from <= k.value && k.value + 1 < |lines| && StartsWith(lines[k.value], Timescale)
    ensures forall j :: from <= j && j + 1 < |lines| && (k.None? || j < k.value) ==> !StartsWith(lines[j], Timescale)
    decreases |lines| - from
  {
    if from + 1 >= |lines| then None
    else if StartsWith(lines[from], Timescale) then Some(from)
    else FirstTimescaleLine(lines, from + 1)
  }

  /** UVM mode: the preamble after the first `` `timescale `` line, or in front when no `` `timescale `` occurs. */
  function InsertPreamble(lines: seq<string>): (r: seq<string>)
    ensures r == lines || exists j :: 0 <= j <= |lines| && r == lines[..j] + Preamble + lines[j..]
  {
    if MentionsTimescale(lines) then
      match FirstTimescaleLine(lines, 0)
      case Some(k) => lines[..k + 1] + Preamble + lines[k + 1..]
      case None => lines
    else
      assert Preamble + lines == lines[..0] + Preamble + lines[0..];
      Preamble + lines
  }

  /**
   * processCode on the lines of a file: no line of the result is touched by
   * a pattern, except the two preamble lines, which only UVM mode adds.
   */
  function ProcessLines(lines: seq<string>, uvm: bool): (r: seq<string>)
    ensures |r| == |lines| || (uvm && |r| == |lines| + 2)
    ensures !uvm ==> AllPlain(r)
    ensures forall i :: 0 <= i < |r| ==> Plain(r[i]) || r[i] == MacrosInclude || r[i] == PkgImport
  {
    var c := CleanLines(lines, uvm);
    CleanLinesPlain(lines, uvm);
    InsertedLines(c);
    if uvm then InsertPreamble(c) else c
  }

  /** Inserting the preamble into plain lines adds only the preamble's two lines. */
  lemma InsertedLines(c: seq<string>)
    requires AllPlain(c)
    ensures var r := InsertPreamble(c);
      forall i :: 0 <= i < |r| ==> Plain(r[i]) || r[i] == MacrosInclude || r[i] == PkgImport
  {
    var r := InsertPreamble(c);
    PlacedAt(c);
    if r != c {
      var p := Place(c);
      forall i | 0 <= i < |r|
        ensures Plain(r[i]) || r[i] == MacrosInclude || r[i] == PkgImport
      {
        if i < p {
          assert r[i] == c[i];
        } else if i >= p + 2 {
          assert r[i] == c[i - 2];
        }
      }
    }
  }

  /** processCode on the text of a file: the lines of its result are ProcessLines of the lines of `code`. */
  function ProcessCode(code: string, uvm: bool): (out: string)
    ensures SplitLines(out) == ProcessLines(SplitLines(code), uvm)
  {
    var r := ProcessLines(SplitLines(code), uvm);
    ProcessedUnbroken(SplitLines(code), uvm);
    SplitJoin(r);
    JoinLines(r)
  }

  // Properties.

  lemma NotesUnbroken()
    ensures '\n' !in DumpfileNote && '\n' !in DumpvarsNote && '\n' !in ""
  {
  }

  lemma PreambleUnbroken()
    ensures '\n' !in MacrosInclude && '\n' !in PkgImport
  {
  }

  /** No line holds a line break. */
  predicate Unbroken(lines: seq<string>) {
    forall i :: 0 <= i < |lines| ==> '\n' !in lines[i]
  }

  lemma CleanLinesUnbroken(lines: seq<string>, uvm: bool)
    requires Unbroken(lines)
    ensures Unbroken(CleanLines(lines, uvm))
  {
    NotesUnbroken();
    forall i | 0 <= i < |lines|
      ensures '\n' !in CleanLines(lines, uvm)[i]
    {
      CleanLineAt(lines, uvm, i);
    }
  }

  lemma InsertUnbroken(c: seq<string>)
    requires Unbroken(c)
    ensures Unbroken(InsertPreamble(c))
  {
    PreambleUnbroken();
    assert Unbroken(Preamble);
    if MentionsTimescale(c) && FirstTimescaleLine(c, 0).Some? {
      var k := FirstTimescaleLine(c, 0).value;
      assert Unbroken(c[..k + 1]) && Unbroken(c[k + 1..]);
      UnbrokenJoin(c[..k + 1], Preamble);
      UnbrokenJoin(c[..k + 1] + Preamble, c[k + 1..]);
    } else if !MentionsTimescale(c) {
      UnbrokenJoin(Preamble, c);
    }
  }

  lemma UnbrokenJoin(a: seq<string>, b: seq<string>)
    requires Unbroken(a) && Unbroken(b)
    ensures Unbroken(a + b)
  {
    assert forall i :: 0 <= i < |a + b| ==> (a + b)[i] == if i < |a| then a[i] else b[i - |a|];
  }

  /** The rewriting never creates a line break inside a line, and keeps at least one line. */
  lemma ProcessedUnbroken(lines: seq<string>, uvm: bool)
    requires |lines| >= 1 && Unbroken(lines)
    ensures var r := ProcessLines(lines, uvm); |r| >= 1 && Unbroken(r)
  {
    CleanLinesUnbroken(lines, uvm);
    if uvm {
      InsertUnbroken(CleanLines(lines, uvm));
    }
  }

  // The `` `timescale `` test.

  /** An occurrence of a break-free pattern in two lines joined by a break lies within one of the two. */
  lemma ContainsAcrossBreak(a: string, b: string, p: string)
    requires '\n' !in p
    ensures Contains(a + "\n" + b, p) <==> Contains(a, p) || Contains(b, p)
  {
    var s := a + "\n" + b;
    if Contains(s, p) {
      var k :| 0 <= k <= |s| && HasAt(s, k, p);
      OccurrenceSide(a, b, p, k);
    }
    if Contains(a, p) {
      var k :| 0 <= k <= |a| && HasAt(a, k, p);
      HasAtLeft(a, "\n", k, p);
      HasAtLeft(a + "\n", b, k, p);
    }
    if Contains(b, p) {
      var k :| 0 <= k <= |b| && HasAt(b, k, p);
      HasAtRight(a + "\n", b, k, p);
    }
  }

  lemma OccurrenceSide(a: string, b: string, p: string, k: nat)
    requires '\n' !in p && HasAt(a + "\n" + b, k, p)
    ensures Contains(a, p) || Contains(b, p)
  {
    var s := a + "\n" + b;
    assert forall i :: k <= i < k + |p| ==> s[i] == p[i - k];
    assert forall i :: k <= i < k + |p| ==> s[i] != '\n' by {
      forall i | k <= i < k + |p|
        ensures s[i] != '\n'
      {
        assert p[i - k] in p;
      }
    }
    assert s[|a|] == '\n';
    assert !(k <= |a| < k + |p|);
    if k + |p| <= |a| {
      assert s[k..k + |p|] == a[k..k + |p|];
      assert HasAt(a, k, p);
    } else {
      var m := k - |a| - 1;
      assert s[k..k + |p|] == b[m..m + |p|];
      assert HasAt(b, m, p);
    }
  }

  /** The test for `` `timescale `` anywhere in the text holds exactly when one of its lines mentions it. */
  lemma {:induction false} MentionIsTextual(lines: seq<string>)
    ensures Contains(JoinLines(lines), Timescale) <==> MentionsTimescale(lines)
    decreases |lines|
  {
    if |lines| == 0 {
      assert !HasAt("", 0, Timescale);
    } else if |lines| >= 2 {
      var rest := lines[1..];
      ContainsAcrossBreak(lines[0], JoinLines(rest), Timescale);
      MentionIsTextual(rest);
      if MentionsTimescale(rest) {
        var i :| 0 <= i < |rest| && Contains(rest[i], Timescale);
        assert lines[i + 1] == rest[i];
      }
      if MentionsTimescale(lines) {
        var i :| 0 <= i < |lines| && Contains(lines[i], Timescale);
        if i > 0 {
          assert rest[i - 1] == lines[i];
        }
      }
    }
  }

  lemma StartMentions(line: string)
    requires StartsWith(line, Timescale)
    ensures Contains(line, Timescale)
  {
    assert HasAt(line, 0, Timescale);
  }

  /** A line that has no backquote does not mention `` `timescale ``. */
  lemma NoBackquoteNoMention(line: string)
    requires '`' !in line
    ensures !Contains(line, Timescale)
  {
    forall k | 0 <= k <= |line|
      ensures !HasAt(line, k, Timescale)
    {
      if k + |Timescale| <= |line| {
        assert line[k..k + |Timescale|][0] == line[k];
      }
    }
  }

  /** Any line that fits FirstTimescaleLine's description is the one it finds. */
  lemma FirstTimescaleIs(lines: seq<string>, k: nat)
    requires k + 1 < |lines| && StartsWith(lines[k], Timescale)
    requires forall j :: 0 <= j < k ==> !StartsWith(lines[j], Timescale)
    ensures FirstTimescaleLine(lines, 0) == Some(k)
  {
  }

  // Where the preamble goes.

  /** The insertion goes right after the first line before the last that begins with `` `timescale ``. */
  lemma InsertAfter(c: seq<string>, k: nat)
    requires k + 1 < |c| && StartsWith(c[k], Timescale)
    requires forall j :: 0 <= j < k ==> !StartsWith(c[j], Timescale)
    ensures InsertPreamble(c) == c[..k + 1] + Preamble + c[k + 1..]
  {
    StartMentions(c[k]);
    FirstTimescaleIs(c, k);
  }

  /**
   * UVM mode: when a line before the last begins with `` `timescale ``, the
   * preamble goes right after the first such line and nothing else moves.
   */
  lemma PreambleAfterTimescale(lines: seq<string>, k: nat)
    requires k + 1 < |lines| && StartsWith(CleanLines(lines, true)[k], Timescale)
    requires forall j :: 0 <= j < k ==> !StartsWith(CleanLines(lines, true)[j], Timescale)
    ensures ProcessLines(lines, true) == CleanLines(lines, true)[..k + 1] + Preamble + CleanLines(lines, true)[k + 1..]
  {
    InsertAfter(CleanLines(lines, true), k);
  }

  /** UVM mode: when the text does not contain `` `timescale `` at all, the preamble goes in front. */
  lemma PreamblePrepended(lines: seq<string>)
    requires !Contains(JoinLines(CleanLines(lines, true)), Timescale)
    ensures ProcessLines(lines, true) == Preamble + CleanLines(lines, true)
  {
    MentionIsTextual(CleanLines(lines, true));
  }

  /**
   * UVM mode: when the text contains `` `timescale `` but no line before the
   * last begins with it, the placement test passes, the insertion finds no
   * line, and no preamble is added at all.
   */
  lemma NoPreambleWhenMidLine(lines: seq<string>)
    requires Contains(JoinLines(CleanLines(lines, true)), Timescale)
    requires forall j :: 0 <= j < |lines| - 1 ==> !StartsWith(CleanLines(lines, true)[j], Timescale)
    ensures ProcessLines(lines, true) == CleanLines(lines, true)
  {
    MentionIsTextual(CleanLines(lines, true));
  }

  // How often the preamble's lines occur.

  /** The number of lines that satisfy `p`. */
  function Count(lines: seq<string>, p: string -> bool): nat {
    if lines == [] then 0 else (if p(lines[0]) then 1 else 0) + Count(lines[1..], p)
  }

  lemma {:induction false} CountAppend(a: seq<string>, b: seq<string>, p: string -> bool)
    ensures Count(a + b, p) == Count(a, p) + Count(b, p)
    decreases |a|
  {
    if a == [] {
      assert a + b == b;
    } else {
      assert (a + b)[1..] == a[1..] + b;
      CountAppend(a[1..], b, p);
    }
  }

  predicate AllPlain(c: seq<string>) {
    forall i :: 0 <= i < |c| ==> Plain(c[i])
  }

  lemma PlainSlices(c: seq<string>, k: nat)
    requires AllPlain(c) && k <= |c|
    ensures AllPlain(c[..k]) && AllPlain(c[k..])
  {
    assert forall i :: 0 <= i < k ==> c[..k][i] == c[i];
    assert forall i :: 0 <= i < |c| - k ==> c[k..][i] == c[k + i];
  }

  /** Plain lines hold no include-only and no import-only line. */
  lemma {:induction false} CountPlain(c: seq<string>)
    requires AllPlain(c)
    ensures Count(c, IsUvmInclude) == 0 && Count(c, IsUvmImport) == 0
    decreases |c|
  {
    if c != [] {
      PlainSlices(c, 1);
      CountPlain(c[1..]);
    }
  }

  lemma CountPair(x: string, y: string)
    requires IsUvmInclude(x) && !IsUvmImport(x) && IsUvmImport(y) && !IsUvmInclude(y)
    ensures Count([x, y], IsUvmInclude) == 1 && Count([x, y], IsUvmImport) == 1
  {
    CountOne(y, IsUvmInclude);
    CountOne(y, IsUvmImport);
    assert [x, y][1..] == [y];
    assert Count([x, y], IsUvmInclude) == 1 + Count([y], IsUvmInclude);
    assert Count([x, y], IsUvmImport) == 0 + Count([y], IsUvmImport);
  }

  lemma CountOne(y: string, p: string -> bool)
    ensures Count([y], p) == if p(y) then 1 else 0
  {
    assert [y][1..] == [];
  }

  lemma CountPreamble()
    ensures Count(Preamble, IsUvmInclude) == 1 && Count(Preamble, IsUvmImport) == 1
  {
    MacrosIncludeRecognised();
    MacrosIncludeOnly();
    PkgImportRecognised();
    PkgImportOnly();
    CountPair(MacrosInclude, PkgImport);
  }

  /**
   * UVM mode: whatever includes and imports the file held, the output holds
   * exactly one include-only line and one import-only line, the preamble's;
   * in the case where no preamble is added it holds none.
   */
  lemma PreambleOnce(lines: seq<string>)
    ensures var c := CleanLines(lines, true); var r := ProcessLines(lines, true);
      if MentionsTimescale(c) && FirstTimescaleLine(c, 0).None? then
        Count(r, IsUvmInclude) == 0 && Count(r, IsUvmImport) == 0
      else
        Count(r, IsUvmInclude) == 1 && Count(r, IsUvmImport) == 1
  {
    CleanLinesPlain(lines, true);
    CountPlain(CleanLines(lines, true));
    InsertedOnce(CleanLines(lines, true));
  }

  /** Where InsertPreamble puts the preamble, when it puts it anywhere. */
  function Place(c: seq<string>): (k: nat)
    ensures k <= |c|
  {
    if MentionsTimescale(c) && FirstTimescaleLine(c, 0).Some? then FirstTimescaleLine(c, 0).value + 1 else 0
  }

  /** Unplaced means unchanged; otherwise the preamble sits at Place(c). */
  lemma PlacedAt(c: seq<string>)
    ensures MentionsTimescale(c) && FirstTimescaleLine(c, 0).None? ==> InsertPreamble(c) == c
    ensures !(MentionsTimescale(c) && FirstTimescaleLine(c, 0).None?) ==>
      InsertPreamble(c) == c[..Place(c)] + Preamble + c[Place(c)..]
  {
    if !MentionsTimescale(c) {
      assert c[..0] + Preamble + c[0..] == Preamble + c;
    }
  }

  /** Unplaced, the preamble is absent; placed, it is the only include and the only import. */
  lemma InsertedOnce(c: seq<string>)
    requires Count(c, IsUvmInclude) == 0 && Count(c, IsUvmImport) == 0
    ensures var r := InsertPreamble(c);
      if MentionsTimescale(c) && FirstTimescaleLine(c, 0).None? then
        Count(r, IsUvmInclude) == 0 && Count(r, IsUvmImport) == 0
      else
        Count(r, IsUvmInclude) == 1 && Count(r, IsUvmImport) == 1
  {
    PlacedAt(c);
    if !(MentionsTimescale(c) && FirstTimescaleLine(c, 0).None?) {
      CountPreamble();
      OnceBetween(c, Place(c), Preamble);
    }
  }

  /** Lines holding one include and one import, put between two parts of lines holding neither, hold one of each. */
  lemma OnceBetween(c: seq<string>, k: nat, pre: seq<string>)
    requires Count(c, IsUvmInclude) == 0 && Count(c, IsUvmImport) == 0 && k <= |c|
    requires Count(pre, IsUvmInclude) == 1 && Count(pre, IsUvmImport) == 1
    ensures Count(c[..k] + pre + c[k..], IsUvmInclude) == 1
    ensures Count(c[..k] + pre + c[k..], IsUvmImport) == 1
  {
    assert c == c[..k] + c[k..];
    CountAppend(c[..k], c[k..], IsUvmInclude);
    CountAppend(c[..k], c[k..], IsUvmImport);
    CountAppend(c[..k], pre, IsUvmInclude);
    CountAppend(c[..k] + pre, c[k..], IsUvmInclude);
    CountAppend(c[..k], pre, IsUvmImport);
    CountAppend(c[..k] + pre, c[k..], IsUvmImport);
  }

  /** Outside UVM mode no include-only or import-only line is left, and the number of lines is kept. */
  lemma NonUvmStrips(lines: seq<string>)
    ensures var r := ProcessLines(lines, false);
      |r| == |lines| && Count(r, IsUvmInclude) == 0 && Count(r, IsUvmImport) == 0
  {
    CleanLinesPlain(lines, false);
    CountPlain(CleanLines(lines, false));
  }

  // Running the rewriting twice.

  /** Plain lines pass through every pass unchanged. */
  lemma CleanLinesOfPlain(c: seq<string>, uvm: bool)
    requires AllPlain(c)
    ensures CleanLines(c, uvm) == c
  {
    ReplaceNone(c, IsDumpfileCall, DumpfileNote);
    ReplaceNone(c, IsDumpvarsCall, DumpvarsNote);
    ReplaceNone(c, IsUvmInclude, "");
    ReplaceNone(c, IsUvmImport, "");
  }

  lemma CleanLinesAppend(a: seq<string>, b: seq<string>, uvm: bool)
    ensures CleanLines(a + b, uvm) == CleanLines(a, uvm) + CleanLines(b, uvm)
  {
    var a1, b1 := ReplaceLines(a, IsDumpfileCall, DumpfileNote), ReplaceLines(b, IsDumpfileCall, DumpfileNote);
    ReplaceAppend(a, b, IsDumpfileCall, DumpfileNote);
    var a2, b2 := ReplaceLines(a1, IsDumpvarsCall, DumpvarsNote), ReplaceLines(b1, IsDumpvarsCall, DumpvarsNote);
    ReplaceAppend(a1, b1, IsDumpvarsCall, DumpvarsNote);
    assert ReplaceLines(ReplaceLines(a + b, IsDumpfileCall, DumpfileNote), IsDumpvarsCall, DumpvarsNote) == a2 + b2;
    if uvm {
      ReplaceAppend(a2, b2, IsUvmInclude, "");
      ReplaceAppend(ReplaceLines(a2, IsUvmInclude, ""), ReplaceLines(b2, IsUvmInclude, ""), IsUvmImport, "");
    } else {
      ReplaceAppend(a2, b2, IsUvmImport, "");
      ReplaceAppend(ReplaceLines(a2, IsUvmImport, ""), ReplaceLines(b2, IsUvmImport, ""), IsUvmInclude, "");
    }
  }

  lemma EmptyPair(r: seq<string>)
    requires |r| == 2 && r[0] == "" && r[1] == ""
    ensures r == ["", ""]
  {
  }

  /** The preamble's own lines are stripped by the next pass. */
  lemma PreambleCleaned(uvm: bool)
    ensures CleanLines(Preamble, uvm) == ["", ""]
  {
    MacrosIncludeRecognised();
    MacrosIncludeOnly();
    PkgImportRecognised();
    PkgImportOnly();
    CleanLineAt(Preamble, uvm, 0);
    CleanLineAt(Preamble, uvm, 1);
    EmptyPair(CleanLines(Preamble, uvm));
  }

  /** Outside UVM mode, rewriting the rewritten text changes nothing. */
  lemma NonUvmIdempotent(lines: seq<string>)
    ensures ProcessLines(ProcessLines(lines, false), false) == ProcessLines(lines, false)
  {
    CleanLinesPlain(lines, false);
    CleanLinesOfPlain(CleanLines(lines, false), false);
  }

  /** UVM mode: the output is the cleaned lines with the preamble put in at one place, or without it. */
  lemma UvmOnlyAddsPreamble(lines: seq<string>)
    ensures var c, r := CleanLines(lines, true), ProcessLines(lines, true);
      r == c || exists j :: 0 <= j <= |c| && r == c[..j] + Preamble + c[j..]
  {
    var c := CleanLines(lines, true);
    if MentionsTimescale(c) && FirstTimescaleLine(c, 0).Some? {
      var j := FirstTimescaleLine(c, 0).value + 1;
      assert ProcessLines(lines, true) == c[..j] + Preamble + c[j..];
    } else if !MentionsTimescale(c) {
      assert ProcessLines(lines, true) == c[..0] + Preamble + c[0..];
    }
  }

  /** Plain lines around a block that the line-by-line passes turn into two empty lines. */
  lemma CleanAround(c: seq<string>, m: nat, pre: seq<string>)
    requires AllPlain(c) && m <= |c| && CleanLines(pre, true) == ["", ""]
    ensures CleanLines(c[..m] + pre + c[m..], true) == c[..m] + ["", ""] + c[m..]
  {
    PlainSlices(c, m);
    CleanLinesAppend(c[..m], pre, true);
    CleanLinesAppend(c[..m] + pre, c[m..], true);
    CleanLinesOfPlain(c[..m], true);
    CleanLinesOfPlain(c[m..], true);
  }

  /**
   * A second UVM run over `r` finds the preamble on the two lines before `j`,
   * strips it and puts a new one in at the same place, so in the line model the
   * text gains two empty lines right after it.
   */
  predicate Readded(r: seq<string>, j: int) {
    2 <= j <= |r| && r[j - 2..j] == Preamble && ProcessLines(r, true) == r[..j] + ["", ""] + r[j..]
  }

  /**
   * UVM mode, run twice: where no preamble was added the second run changes
   * nothing; otherwise it only strips the preamble it finds and puts a new one
   * in at the same place.
   */
  lemma UvmSecondPass(lines: seq<string>)
    ensures var c, r := CleanLines(lines, true), ProcessLines(lines, true);
      if MentionsTimescale(c) && FirstTimescaleLine(c, 0).None? then
        ProcessLines(r, true) == r
      else
        exists j :: Readded(r, j)
  {
    var c := CleanLines(lines, true);
    CleanLinesPlain(lines, true);
    PreambleCleaned(true);
    SecondPassOn(c);
    assert ProcessLines(lines, true) == InsertPreamble(c);
  }

  lemma SecondPassOn(c: seq<string>)
    requires AllPlain(c) && CleanLines(Preamble, true) == ["", ""]
    ensures var r := InsertPreamble(c);
      if MentionsTimescale(c) && FirstTimescaleLine(c, 0).None? then
        ProcessLines(r, true) == r
      else
        exists j :: Readded(r, j)
  {
    if MentionsTimescale(c) {
      match FirstTimescaleLine(c, 0)
      case Some(k) =>
        SecondPassAfter(c, k);
        assert InsertPreamble(c) == c[..k + 1] + Preamble + c[k + 1..];
        assert Readded(InsertPreamble(c), k + 3);
      case None =>
        CleanLinesOfPlain(c, true);
    } else {
      SecondPassFront(c);
      assert InsertPreamble(c) == Preamble + c;
      assert Readded(InsertPreamble(c), 2);
    }
  }

  lemma SecondPassAfter(c: seq<string>, k: nat)
    requires AllPlain(c) && CleanLines(Preamble, true) == ["", ""]
    requires FirstTimescaleLine(c, 0) == Some(k)
    ensures Readded(c[..k + 1] + Preamble + c[k + 1..], k + 3)
  {
    CleanAround(c, k + 1, Preamble);
    TimescaleKept(c, k, ["", ""]);
    BlockSplit(c[..k + 1], Preamble, c[k + 1..], ["", ""]);
  }

  /** Lines put in after the first `` `timescale `` line leave it the first. */
  lemma TimescaleKept(c: seq<string>, k: nat, e: seq<string>)
    requires FirstTimescaleLine(c, 0) == Some(k)
    ensures InsertPreamble(c[..k + 1] + e + c[k + 1..]) == c[..k + 1] + Preamble + (e + c[k + 1..])
  {
    var d := c[..k + 1] + e + c[k + 1..];
    FirstKept(c, k, e);
    InsertAfter(d, k);
  }

  lemma FirstKept(c: seq<string>, k: nat, e: seq<string>)
    requires FirstTimescaleLine(c, 0) == Some(k)
    ensures var d := c[..k + 1] + e + c[k + 1..];
      k + 1 < |d| && StartsWith(d[k], Timescale) && (forall j :: 0 <= j < k ==> !StartsWith(d[j], Timescale)) &&
      d[..k + 1] == c[..k + 1] && d[k + 1..] == e + c[k + 1..]
  {
    var d := c[..k + 1] + e + c[k + 1..];
    assert d[..k + 1] == c[..k + 1];
    forall j | 0 <= j <= k
      ensures d[j] == c[j]
    {
      assert d[j] == d[..k + 1][j];
    }
    assert d[k + 1..] == e + c[k + 1..];
  }

  /** Lines that do not mention `` `timescale `` put in front of lines that do not either: still prepended. */
  lemma FrontKept(c: seq<string>, e: seq<string>)
    requires !MentionsTimescale(c) && !MentionsTimescale(e)
    ensures InsertPreamble(e + c) == Preamble + (e + c)
  {
    var d := e + c;
    forall i | 0 <= i < |d|
      ensures !Contains(d[i], Timescale)
    {
      if i < |e| {
        assert d[i] == e[i];
      } else {
        assert d[i] == c[i - |e|];
      }
    }
  }

  lemma BlockSplit(x: seq<string>, p: seq<string>, y: seq<string>, e: seq<string>)
    requires |p| == 2
    ensures var r := x + p + y;
      r[|x|..|x| + 2] == p && x + p + (e + y) == r[..|x| + 2] + e + r[|x| + 2..]
  {
    var r := x + p + y;
    assert r[..|x| + 2] == x + p;
    assert r[|x| + 2..] == y;
  }

  lemma SecondPassFront(c: seq<string>)
    requires AllPlain(c) && CleanLines(Preamble, true) == ["", ""]
    requires !MentionsTimescale(c)
    ensures Readded(Preamble + c, 2)
  {
    CleanFront(c);
    EmptyLinesNoMention();
    FrontKept(c, ["", ""]);
    BlockSplit([], Preamble, c, ["", ""]);
    assert [] + Preamble + c == Preamble + c;
  }

  lemma CleanFront(c: seq<string>)
    requires AllPlain(c) && CleanLines(Preamble, true) == ["", ""]
    ensures CleanLines(Preamble + c, true) == ["", ""] + c
  {
    CleanAround(c, 0, Preamble);
    assert c[..0] + Preamble + c[0..] == Preamble + c;
    assert c[..0] + ["", ""] + c[0..] == ["", ""] + c;
  }

  lemma EmptyLinesNoMention()
    ensures !MentionsTimescale(["", ""])
  {
    NoBackquoteNoMention("");
  }

  /** UVM mode is not idempotent: a second run over a processed one-line module adds empty lines. */
  lemma UvmNotIdempotent()
    ensures ProcessLines(ProcessLines(["module m;"], true), true) != ProcessLines(["module m;"], true)
  {
    var lines := ["module m;"];
    TrimBare(lines[0]);
    PlainByFirst(lines[0]);
    CleanLineAt(lines, true, 0);
    var c := CleanLines(lines, true);
    assert c == lines;
    NoBackquoteNoMention(lines[0]);
    assert !MentionsTimescale(c);
    UvmSecondPass(lines);
  }
}
