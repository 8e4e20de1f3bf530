/**
 * What the staging step of runSimulation does to UVM detection. Detection
 * reads the files as submitted, and the rewrite then replaces every lone
 * `$dumpfile` call by a note. A design whose only UVM marker is inside such
 * a call, as in `$dumpfile("uvm_env.vcd");`, is therefore staged in UVM mode,
 * with the preamble added, while the staged file itself no longer holds any
 * marker: running detection again on what was staged would answer no.
 */
module Staging {
  import opened Wrappers
  import opened Text
  import Detect
  import Rewrite
  import opened Pipeline

  /** The note left in place of a dump call does not mention `` `timescale ``. */
  lemma NoteUnmentioned()
    ensures !Contains(Rewrite.DumpfileNote, Rewrite.Timescale)
  {
    Rewrite.NoBackquoteNoMention(Rewrite.DumpfileNote);
  }

  /** A lone `$dumpfile` call is one line, which the dump pass turns into its note. */
  lemma CleanedDump(line: string)
    requires Rewrite.IsDumpfileCall(line) && '\n' !in line
    ensures SplitLines(line) == [line]
    ensures Rewrite.CleanLines([line], true) == [Rewrite.DumpfileNote]
  {
    SplitJoin([line]);
    Rewrite.CleanLineAt([line], true, 0);
  }

  /** Three lines joined with line breaks. */
  lemma JoinThree(x: string, y: string, z: string)
    ensures JoinLines([x, y, z]) == x + "\n" + (y + "\n" + z)
  {
    assert [x, y, z][1..] == [y, z];
    assert [y, z][1..] == [z];
    assert JoinLines([y, z]) == y + "\n" + z;
  }

  /** In UVM mode a lone `$dumpfile` call becomes the preamble followed by the call's note. */
  lemma StagedDumpText(line: string)
    requires Rewrite.IsDumpfileCall(line) && '\n' !in line
    ensures Rewrite.ProcessCode(line, true) == Rewrite.MacrosInclude + "\n" + (Rewrite.PkgImport + "\n" + Rewrite.DumpfileNote)
  {
    CleanedDump(line);
    NoteUnmentioned();
    var c := [Rewrite.DumpfileNote];
    assert !Rewrite.MentionsTimescale(c);
    assert Rewrite.ProcessLines([line], true) == [Rewrite.MacrosInclude, Rewrite.PkgImport, Rewrite.DumpfileNote];
    JoinThree(Rewrite.MacrosInclude, Rewrite.PkgImport, Rewrite.DumpfileNote);
  }

  /** Each character of `a + "_" + b + "_" + c` is one of the two underscores or a character of a piece. */
  lemma CharOfPieces(a: string, b: string, c: string, i: nat)
    requires i < |a + "_" + b + "_" + c|
    ensures var s := a + "_" + b + "_" + c;
      ((i == |a| || i == |a| + 1 + |b|) && s[i] == '_') || s[i] in a || s[i] in b || s[i] in c
  {
    var s := a + "_" + b + "_" + c;
    if i < |a| {
      assert s[i] == a[i];
    } else if |a| < i < |a| + 1 + |b| {
      assert s[i] == b[i - |a| - 1];
    } else if |a| + 1 + |b| < i {
      assert s[i] == c[i - |a| - |b| - 2];
    }
  }

  /** The requirements on the pieces of the staged text, shared by the lemmas below. */
  predicate Unmarkable(a: string, b: string, c: string) {
    && '_' !in a && '_' !in b && '_' !in c
    && 'x' !in a && 'x' !in b && 'x' !in c
    && 10 < |b| && b[0] == 'm' && b[1] == 'a' && |c| > 0 && c[0] == 'p'
  }

  /** The only underscores are the two between the pieces. */
  lemma UnderscoreAt(a: string, b: string, c: string, i: nat)
    requires Unmarkable(a, b, c)
    requires i < |a + "_" + b + "_" + c| && (a + "_" + b + "_" + c)[i] == '_'
    ensures i == |a| || i == |a| + 1 + |b|
  {
    CharOfPieces(a, b, c, i);
  }

  /** What follows an underscore: `ma` after the first, `p` after the second. */
  lemma AfterUnderscore(a: string, b: string, c: string, i: nat)
    requires Unmarkable(a, b, c)
    requires i + 1 < |a + "_" + b + "_" + c|
    ensures var s := a + "_" + b + "_" + c;
      s[i] == '_' ==> s[i + 1] == 'p' || (i + 2 < |s| && s[i + 1] == 'm' && s[i + 2] == 'a')
  {
    var s := a + "_" + b + "_" + c;
    if s[i] == '_' {
      UnderscoreAt(a, b, c, i);
      assert s[|a| + 1] == b[0] && s[|a| + 2] == b[1];
      assert s[|a| + |b| + 2] == c[0];
    }
  }

  /** A word starting with neither `p` nor `ma`. */
  predicate FreeStart(w: string) {
    |w| >= 2 && w[0] != 'p' && !(w[0] == 'm' && w[1] == 'a')
  }

  /** No class name begins with `p` or with `ma`. */
  lemma ClassWordsStart()
    ensures forall w :: w in Detect.ClassWords ==> FreeStart(w)
  {
  }

  /** Where such words are tried, the text cannot show `p` or `ma`. */
  lemma {:induction false} WordAmongStart(s: string, j: nat, words: seq<string>)
    requires forall w :: w in words ==> FreeStart(w)
    ensures Detect.WordAmong(s, j, words) ==> j + 1 < |s| && s[j] != 'p' && !(s[j] == 'm' && s[j + 1] == 'a')
    decreases |words|
  {
    if words != [] {
      var w := words[0];
      assert w in words;
      if HasAt(s, j, w) {
        assert s[j..j + |w|][0] == s[j] && s[j..j + |w|][1] == s[j + 1];
      }
      assert forall v :: v in words[1..] ==> v in words;
      WordAmongStart(s, j, words[1..]);
    }
  }

  /** Neither underscore is `uvm_` followed by a class name. */
  lemma NoClassWordAt(a: string, b: string, c: string, k: nat)
    requires Unmarkable(a, b, c)
    ensures !Detect.ClassWordAt(a + "_" + b + "_" + c, k)
  {
    var s := a + "_" + b + "_" + c;
    ClassWordsStart();
    WordAmongStart(s, k + 4, Detect.ClassWords);
    if k + 4 < |s| {
      assert s[k + 3] == s[k..k + 4][3];
      AfterUnderscore(a, b, c, k + 3);
    }
  }

  /** Two underscores are exactly `|b| + 1` apart. */
  lemma UnderscoreGap(a: string, b: string, c: string, i: nat, j: nat)
    requires Unmarkable(a, b, c)
    requires i < j < |a + "_" + b + "_" + c|
    ensures var s := a + "_" + b + "_" + c;
      s[i] == '_' && s[j] == '_' ==> j - i == |b| + 1
  {
    var s := a + "_" + b + "_" + c;
    if s[i] == '_' && s[j] == '_' {
      UnderscoreAt(a, b, c, i);
      UnderscoreAt(a, b, c, j);
    }
  }

  /** A registration macro needs two underscores ten or seven characters apart. */
  lemma NoUtilsAt(a: string, b: string, c: string, k: nat)
    requires Unmarkable(a, b, c)
    ensures !HasAt(a + "_" + b + "_" + c, k, "`uvm_component_utils") && !HasAt(a + "_" + b + "_" + c, k, "`uvm_object_utils")
  {
    var s := a + "_" + b + "_" + c;
    if k + 20 <= |s| {
      UnderscoreGap(a, b, c, k + 4, k + 14);
      assert s[k + 4] == s[k..k + 20][4] && s[k + 14] == s[k..k + 20][14];
    }
    if k + 17 <= |s| {
      UnderscoreGap(a, b, c, k + 4, k + 11);
      assert s[k + 4] == s[k..k + 17][4] && s[k + 11] == s[k..k + 17][11];
    }
  }

  /** `extends` needs an `x`. */
  lemma NoExtendsAt(a: string, b: string, c: string, k: nat)
    requires Unmarkable(a, b, c)
    ensures !Detect.ExtendsAt(a + "_" + b + "_" + c, k)
  {
    var s := a + "_" + b + "_" + c;
    if k + 7 <= |s| {
      CharOfPieces(a, b, c, k + 1);
      assert s[k + 1] == s[k..k + 7][1];
    }
  }

  /** Such a text holds none of the three UVM markers. */
  lemma UnmarkedText(a: string, b: string, c: string)
    requires Unmarkable(a, b, c)
    ensures !Detect.UvmSource(a + "_" + b + "_" + c)
  {
    var s := a + "_" + b + "_" + c;
    forall k | 0 <= k <= |s|
      ensures !Detect.ClassWordAt(s, k) && !HasAt(s, k, "`uvm_component_utils") && !HasAt(s, k, "`uvm_object_utils") && !Detect.ExtendsAt(s, k)
    {
      NoClassWordAt(a, b, c, k);
      NoUtilsAt(a, b, c, k);
      NoExtendsAt(a, b, c, k);
    }
  }

  /** The preamble's two lines, cut at their underscores. */
  lemma PreambleParts()
    ensures Rewrite.MacrosInclude == "`include \"uvm" + "_" + "macros.svh\""
    ensures Rewrite.PkgImport == "import uvm" + "_" + "pkg::*;"
  {
  }

  /** The staged text of a lone dump call, cut at its two underscores, meets `Unmarkable`. */
  lemma PiecesUnmarkable(m: string, i: string, p: string)
    requires m == "macros.svh\"" && i == "import uvm" && p == "pkg::*;"
    ensures Unmarkable("`include \"uvm", m + "\n" + i, p + "\n" + Rewrite.DumpfileNote)
  {
    assert '_' !in Rewrite.DumpfileNote && 'x' !in Rewrite.DumpfileNote;
  }

  /** The text the rewrite makes of a lone `$dumpfile` call holds no UVM marker. */
  lemma StagedDumpUnmarked()
    ensures !Detect.UvmSource(Rewrite.MacrosInclude + "\n" + (Rewrite.PkgImport + "\n" + Rewrite.DumpfileNote))
  {
    var a, m, i, p := "`include \"uvm", "macros.svh\"", "import uvm", "pkg::*;";
    PreambleParts();
    PiecesUnmarkable(m, i, p);
    var b, c := m + "\n" + i, p + "\n" + Rewrite.DumpfileNote;
    UnmarkedText(a, b, c);
    assert Rewrite.MacrosInclude + "\n" + (Rewrite.PkgImport + "\n" + Rewrite.DumpfileNote) == a + "_" + b + "_" + c;
  }

  /** A `$dumpfile` call whose argument names a UVM class: a dump call, on one line, and UVM code. */
  lemma MarkedDumpCall(pre: string, w: string, post: string)
    requires w in Detect.ClassWords && post != [] && !IsWordChar(post[0])
    requires ')' !in pre && ')' !in w && ')' !in post
    requires '\n' !in pre && '\n' !in w && '\n' !in post
    ensures var line := Rewrite.CallText("$dumpfile", "", pre + "uvm_" + w + post, "");
      Rewrite.IsDumpfileCall(line) && '\n' !in line && Detect.UvmSource(line)
  {
    var args := pre + "uvm_" + w + post;
    var line := Rewrite.CallText("$dumpfile", "", args, "");
    assert forall k :: 0 <= k < |args| ==> args[k] != ')' by {
      forall k | 0 <= k < |args| ensures args[k] != ')' {
        assert args[k] in pre || args[k] in "uvm_" || args[k] in w || args[k] in post;
      }
    }
    Rewrite.DumpCallAccepted("", "$dumpfile", "", args, "", "");
    assert "" + line + "" == line;
    var head, tail := "$dumpfile" + ("" + ("(" + pre)), post + (")" + ("" + ";"));
    Detect.ClassWordAccepted(head, w, tail);
    Regroup("$dumpfile", "", "(", pre, "uvm_", w, post, ")" + ("" + ";"));
    CallUnbroken(pre, w, post);
  }

  /** A call whose argument pieces hold no line break is one line. */
  lemma CallUnbroken(pre: string, w: string, post: string)
    requires '\n' !in pre && '\n' !in w && '\n' !in post
    ensures '\n' !in Rewrite.CallText("$dumpfile", "", pre + "uvm_" + w + post, "")
  {
    assert '\n' !in "$dumpfile" && '\n' !in "(" && '\n' !in "uvm_" && '\n' !in ")" + ("" + ";");
  }

  /** The call text, regrouped around the marker. */
  lemma Regroup(t: string, ws: string, open: string, pre: string, u: string, w: string, post: string, close: string)
    ensures t + (ws + (open + (pre + u + w + post + close))) == t + (ws + (open + pre)) + u + w + (post + close)
  {
  }

  /** The example: `$dumpfile("uvm_env.vcd");`. */
  lemma EnvDumpMarked()
    ensures var line := Rewrite.CallText("$dumpfile", "", "\"" + "uvm_" + "env" + ".vcd\"", "");
      Rewrite.IsDumpfileCall(line) && '\n' !in line && Detect.UvmSource(line)
  {
    MarkedDumpCall("\"", "env", ".vcd\"");
  }

  /** `code` alone is staged as design.sv, in the mode its own text selects. */
  lemma CodeStaged(line: string)
    requires line != []
    ensures var st := Prepare(Request(Some(line), None, None));
      && st.uvm == Detect.UvmSource(line)
      && st.sources == [SourceFile(DefaultFile, Rewrite.ProcessCode(line, st.uvm))]
      && Texts(st.sources) == [Rewrite.ProcessCode(line, st.uvm)]
  {
    var req := Request(Some(line), None, None);
    assert Texts(Sources(req)) == [line];
    assert Detect.AnyUvm([line]) == Detect.UvmSource(line);
    var staged := Rewrite.ProcessCode(line, Detect.UvmSource(line));
    assert Texts([SourceFile(DefaultFile, staged)]) == [staged];
  }

  /** A dump call is not empty. */
  lemma DumpCallNonEmpty(line: string)
    requires Rewrite.IsDumpfileCall(line)
    ensures line != []
  {
    TrimShape(line);
  }

  /**
   * Detection does not survive the rewrite: a design whose only UVM marker is
   * in a lone dump call is staged in UVM mode, yet the staged file holds no
   * marker, because the call was replaced by its note.
   */
  lemma MarkerLostInStaging(line: string)
    requires Rewrite.IsDumpfileCall(line) && '\n' !in line && Detect.UvmSource(line)
    ensures var st := Prepare(Request(Some(line), None, None));
      st.uvm && |st.sources| == 1 && !Detect.AnyUvm(Texts(st.sources))
  {
    DumpCallNonEmpty(line);
    CodeStaged(line);
    StagedDumpText(line);
    StagedDumpUnmarked();
  }
}
