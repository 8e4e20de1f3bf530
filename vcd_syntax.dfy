/**
 * Hand-written matchers for the three regular expressions parseVCD applies to
 * a trimmed line of a Value Change Dump (IEEE 1800-2017 section 21.7):
 *
 *   - a declaration, searched anywhere in the line:
 *       `$var` ws+ type ws+ width-digits ws+ id ws+ name
 *   - a scalar change, the whole line: one value character, then an id
 *   - a vector change, the whole line: `b`, value characters, ws+, an id
 *
 * Each matcher is given its meaning twice: what a match tells the caller
 * (its ensures) and which lines it accepts (a lemma per form).
 */
module VcdSyntax {
  import opened Wrappers
  import opened Text

  /** The characters `[01xzXZ]` that a value change may carry. */
  predicate IsValueChar(c: char) {
    c == '0' || c == '1' || c == 'x' || c == 'z' || c == 'X' || c == 'Z'
  }

  predicate IsBits(s: string) { |s| > 0 && forall k :: 0 <= k < |s| ==> IsValueChar(s[k]) }

  /** A `$var` record: the declared width, the short identifier and the signal name. */
  datatype VarDecl = VarDecl(width: nat, id: string, name: string)

  /** A value-change record: the value text and the identifier it applies to. */
  datatype ValueChange = ValueChange(val: string, id: string)

  /** One field cut from the front of a string: its text and what follows it. */
  datatype Piece = Piece(text: string, rest: string)

  /**
   * A non-empty blank run followed by the longest run of characters satisfying `p`, at the
   * front of `s`: that run and the rest of `s`, when both parts are non-empty.
   */
  function SpaceThenRun(s: string, p: char -> bool): (r: Option<Piece>)
    ensures r.Some? ==> |r.value.text| > 0 && forall k :: 0 <= k < |r.value.text| ==> p(r.value.text[k])
    ensures r.Some? ==> r.value.rest == [] || !p(r.value.rest[0])
  {
    var a := Span(s, 0, IsSpace);
    var b := Span(s, a, p);
    if 0 < a < b then Some(Piece(s[a..b], s[b..])) else None
  }

  /** What SpaceThenRun cuts is preceded by the non-empty blank run at the front of `s`, and the three parts make up `s`. */
  lemma SpaceThenRunSplits(s: string, p: char -> bool)
    requires SpaceThenRun(s, p).Some?
    ensures var ws := s[..Span(s, 0, IsSpace)];
      |ws| > 0 && IsBlank(ws) && s == ws + SpaceThenRun(s, p).value.text + SpaceThenRun(s, p).value.rest
  {
    var a := Span(s, 0, IsSpace);
    var b := Span(s, a, p);
    assert s == s[..a] + s[a..b] + s[b..];
    assert IsBlank(s[..a]);
  }

  /** The declaration pattern matched at the front of `t`. */
  function VarAt(t: string): (m: Option<VarDecl>)
    ensures m.Some? ==> StartsWith(t, "$var") && IsToken(m.value.id) && IsToken(m.value.name)
  {
    if !StartsWith(t, "$var") then None
    else
      match SpaceThenRun(t[4..], NotSpace)
      case None => None
      case Some(kind) => DeclFields(kind.rest)
  }

  /** The part of the declaration pattern after the type: blanks, a decimal width, blanks, an identifier, blanks, a name. */
  function DeclFields(s: string): (m: Option<VarDecl>)
    ensures m.Some? ==> IsToken(m.value.id) && IsToken(m.value.name)
  {
    match SpaceThenRun(s, IsDigit)
    case None => None
    case Some(width) =>
      match SpaceThenRun(width.rest, NotSpace)
      case None => None
      case Some(id) =>
        match SpaceThenRun(id.rest, NotSpace)
        case None => None
        case Some(name) => Some(VarDecl(NumeralValue(width.text, 10), id.text, name.text))
  }

  /** The leftmost match of the declaration pattern at or after index `i` (see FindVarLeftmost). */
  function FindVar(t: string, i: nat): Option<VarDecl>
    requires i <= |t|
    decreases |t| - i
  {
    match VarAt(t[i..])
    case Some(v) => Some(v)
    case None => if i < |t| then FindVar(t, i + 1) else None
  }

  /** No match of the declaration pattern starts in `[i, j)`. */
  predicate NoVarBetween(t: string, i: nat, j: nat)
    requires i <= j <= |t| + 1
    decreases j - i
  {
    i == j || (VarAt(t[i..]).None? && NoVarBetween(t, i + 1, j))
  }

  /** NoVarBetween read index by index. */
  lemma {:induction false} NoVarBetweenAt(t: string, i: nat, j: nat, k: nat)
    requires i <= k < j <= |t| + 1 && NoVarBetween(t, i, j)
    ensures VarAt(t[k..]).None?
    decreases k - i
  {
    if i < k {
      NoVarBetweenAt(t, i + 1, j, k);
    }
  }

  /**
   * The search is the leftmost match: a result is the match at some index with
   * none before it, and no result means no index matches.
   */
  lemma {:induction false} FindVarLeftmost(t: string, i: nat)
    requires i <= |t|
    ensures FindVar(t, i).Some? ==> exists j :: i <= j <= |t| && VarAt(t[j..]) == FindVar(t, i) && NoVarBetween(t, i, j)
    ensures FindVar(t, i).None? ==> NoVarBetween(t, i, |t| + 1)
    decreases |t| - i
  {
    if VarAt(t[i..]).Some? {
      assert NoVarBetween(t, i, i);
    } else if i < |t| {
      FindVarLeftmost(t, i + 1);
      if FindVar(t, i + 1).Some? {
        var j :| i + 1 <= j <= |t| && VarAt(t[j..]) == FindVar(t, i) && NoVarBetween(t, i + 1, j);
      }
    }
  }

  /** The declaration pattern searched anywhere in `t`: `$var`, a type, a width, an identifier and a name, each after blanks. */
  function MatchVar(t: string): (m: Option<VarDecl>)
    ensures m.Some? ==> exists j :: 0 <= j <= |t| && VarAt(t[j..]) == m && NoVarBetween(t, 0, j)
    ensures m.None? ==> NoVarBetween(t, 0, |t| + 1)
  {
    FindVarLeftmost(t, 0);
    FindVar(t, 0)
  }

  /** The scalar change pattern on the whole of `t`: one value character, then a non-blank identifier. */
  function MatchScalar(t: string): (m: Option<ValueChange>)
    ensures m.Some? ==> t == m.value.val + m.value.id && |m.value.val| == 1
    ensures m.Some? ==> IsValueChar(m.value.val[0]) && IsToken(m.value.id)
  {
    if |t| >= 2 && IsValueChar(t[0]) && IsToken(t[1..]) then Some(ValueChange(t[..1], t[1..])) else None
  }

  /** The vector change pattern on the whole of `t`: `b`, one or more value characters, blanks, then a non-blank identifier. */
  function MatchVector(t: string): (m: Option<ValueChange>)
    ensures m.Some? ==> IsBits(m.value.val) && IsToken(m.value.id)
    ensures m.Some? ==> exists ws :: |ws| > 0 && IsBlank(ws) && t == "b" + m.value.val + ws + m.value.id
  {
    if |t| == 0 || t[0] != 'b' then None
    else
      var k := Span(t, 1, IsValueChar);
      var j := Span(t, k, IsSpace);
      if 1 < k && k < j && j < |t| && IsToken(t[j..]) then
        assert t[..1] == "b";
        assert t[..k] == t[..1] + t[1..k];
        assert t[..j] == t[..k] + t[k..j];
        assert t == t[..j] + t[j..];
        assert IsBlank(t[k..j]);
        Some(ValueChange(t[1..k], t[j..]))
      else
        None
  }

  /** A run of characters all satisfying `p`, placed at `i` and followed by one that does not, is what Span finds. */
  lemma SpanOverPiece(t: string, i: nat, piece: string, p: char -> bool)
    requires HasAt(t, i, piece)
    requires forall k :: 0 <= k < |piece| ==> p(piece[k])
    requires i + |piece| == |t| || !p(t[i + |piece|])
    ensures Span(t, i, p) == i + |piece|
  {
    forall k | i <= k < i + |piece| ensures p(t[k]) {
      assert t[k] == t[i..i + |piece|][k - i];
    }
    SpanIs(t, i, i + |piece|, p);
  }

  /** Every scalar change line, a value character followed by an identifier, is accepted. */
  lemma ScalarAccepted(v: char, id: string)
    requires IsValueChar(v) && IsToken(id)
    ensures MatchScalar([v] + id) == Some(ValueChange([v], id))
  {
    var t := [v] + id;
    assert t[1..] == id && t[..1] == [v];
  }

  /** Every vector change line `b<bits><ws><id>` is accepted, with exactly those bits and that id. */
  lemma VectorAccepted(bits: string, ws: string, id: string)
    requires IsBits(bits) && |ws| > 0 && IsBlank(ws) && IsToken(id)
    ensures MatchVector("b" + bits + ws + id) == Some(ValueChange(bits, id))
  {
    VectorSpans(bits, ws, id);
  }

  /** Where the two runs of a vector change line end, and what they cut. */
  lemma VectorSpans(bits: string, ws: string, id: string)
    requires IsBits(bits) && |ws| > 0 && IsBlank(ws) && IsToken(id)
    ensures var t := "b" + bits + ws + id;
      && |t| > 0 && t[0] == 'b'
      && Span(t, 1, IsValueChar) == 1 + |bits|
      && Span(t, 1 + |bits|, IsSpace) == 1 + |bits| + |ws|
      && t[1..1 + |bits|] == bits && t[1 + |bits| + |ws|..] == id
  {
    var t := "b" + bits + ws + id;
    var k := 1 + |bits|;
    var j := k + |ws|;
    assert HasAt(t, 1, bits);
    assert HasAt(t, k, ws);
    assert t[j..] == id;
    assert t[k] == ws[0];
    SpanOverPiece(t, 1, bits, IsValueChar);
    assert t[j] == id[0];
    SpanOverPiece(t, k, ws, IsSpace);
  }

  /**
   * A blank run, then a run of `p` characters that does not start with a
   * blank, then a rest that cannot extend the run: SpaceThenRun cuts exactly
   * that run.
   */
  lemma RunAccepted(ws: string, piece: string, rest: string, p: char -> bool)
    requires |ws| > 0 && IsBlank(ws)
    requires |piece| > 0 && !IsSpace(piece[0]) && forall k :: 0 <= k < |piece| ==> p(piece[k])
    requires rest == [] || !p(rest[0])
    ensures SpaceThenRun(ws + piece + rest, p) == Some(Piece(piece, rest))
  {
    var s := ws + piece + rest;
    assert s[|ws|] == piece[0];
    SpanIs(s, 0, |ws|, IsSpace);
    assert forall k :: |ws| <= k < |ws| + |piece| ==> s[k] == piece[k - |ws|];
    assert |ws| + |piece| == |s| || s[|ws| + |piece|] == rest[0];
    SpanIs(s, |ws|, |ws| + |piece|, p);
    assert s[|ws|..|ws| + |piece|] == piece;
    assert s[|ws| + |piece|..] == rest;
  }

  /** The text of a declaration laid out from its pieces. */
  function DeclText(ws1: string, kind: string, ws2: string, width: string, ws3: string,
                    id: string, ws4: string, name: string, tail: string): string
  {
    "$var" + (ws1 + kind + (ws2 + width + (ws3 + id + (ws4 + name + tail))))
  }

  /**
   * Every declaration in the standard layout is accepted, whatever follows the
   * name (commonly ` $end`), with the width read in decimal.
   */
  lemma VarAccepted(ws1: string, kind: string, ws2: string, width: string, ws3: string,
                    id: string, ws4: string, name: string, tail: string)
    requires |ws1| > 0 && IsBlank(ws1) && |ws2| > 0 && IsBlank(ws2)
    requires |ws3| > 0 && IsBlank(ws3) && |ws4| > 0 && IsBlank(ws4)
    requires IsToken(kind) && IsDigits(width) && IsToken(id) && IsToken(name)
    requires tail == [] || IsSpace(tail[0])
    ensures MatchVar(DeclText(ws1, kind, ws2, width, ws3, id, ws4, name, tail))
         == Some(VarDecl(NumeralValue(width, 10), id, name))
  {
    var t := DeclText(ws1, kind, ws2, width, ws3, id, ws4, name, tail);
    VarAtAccepted(ws1, kind, ws2, width, ws3, id, ws4, name, tail);
    assert t[0..] == t;
  }

  /** The same, for the pattern matched at the front of the text. */
  lemma VarAtAccepted(ws1: string, kind: string, ws2: string, width: string, ws3: string,
                      id: string, ws4: string, name: string, tail: string)
    requires |ws1| > 0 && IsBlank(ws1) && |ws2| > 0 && IsBlank(ws2)
    requires |ws3| > 0 && IsBlank(ws3) && |ws4| > 0 && IsBlank(ws4)
    requires IsToken(kind) && IsDigits(width) && IsToken(id) && IsToken(name)
    requires tail == [] || IsSpace(tail[0])
    ensures VarAt(DeclText(ws1, kind, ws2, width, ws3, id, ws4, name, tail))
         == Some(VarDecl(NumeralValue(width, 10), id, name))
  {
    var r2 := ws2 + width + (ws3 + id + (ws4 + name + tail));
    var t := "$var" + (ws1 + kind + r2);
    FieldsAccepted(ws2, width, ws3, id, ws4, name, tail);
    assert r2[0] == ws2[0];
    RunAccepted(ws1, kind, r2, NotSpace);
    assert t[..4] == "$var" && t[4..] == ws1 + kind + r2;
  }

  /** The fields after the type, laid out in the standard way, are read back exactly. */
  lemma FieldsAccepted(ws2: string, width: string, ws3: string, id: string, ws4: string, name: string, tail: string)
    requires |ws2| > 0 && IsBlank(ws2) && |ws3| > 0 && IsBlank(ws3) && |ws4| > 0 && IsBlank(ws4)
    requires IsDigits(width) && IsToken(id) && IsToken(name)
    requires tail == [] || IsSpace(tail[0])
    ensures DeclFields(ws2 + width + (ws3 + id + (ws4 + name + tail))) == Some(VarDecl(NumeralValue(width, 10), id, name))
  {
    var r4 := ws4 + name + tail;
    var r3 := ws3 + id + r4;
    RunAccepted(ws4, name, tail, NotSpace);
    assert r4[0] == ws4[0];
    RunAccepted(ws3, id, r4, NotSpace);
    assert r3[0] == ws3[0];
    RunAccepted(ws2, width, r3, IsDigit);
  }

  /** `s` is a declaration laid out from these pieces, each of the kind the pattern asks for, with fields `d`. */
  ghost predicate DeclShape(s: string, d: VarDecl, ws1: string, kind: string, ws2: string, width: string,
                            ws3: string, ws4: string, tail: string)
  {
    && |ws1| > 0 && IsBlank(ws1) && IsToken(kind)
    && FieldsShape(ws2 + width + (ws3 + d.id + (ws4 + d.name + tail)), d, ws2, width, ws3, ws4, tail)
    && s == DeclText(ws1, kind, ws2, width, ws3, d.id, ws4, d.name, tail)
  }

  /** `s` is some declaration in the standard layout whose fields are `d`. */
  ghost predicate IsDeclText(s: string, d: VarDecl) {
    exists ws1, kind, ws2, width, ws3, ws4, tail :: DeclShape(s, d, ws1, kind, ws2, width, ws3, ws4, tail)
  }

  /** The declaration pattern matches at the front of `s` with fields `d` exactly when `s` is laid out as such a declaration. */
  lemma VarAtExactly(s: string, d: VarDecl)
    ensures VarAt(s) == Some(d) <==> IsDeclText(s, d)
  {
    if VarAt(s) == Some(d) {
      VarAtRead(s);
    }
    if IsDeclText(s, d) {
      var ws1, kind, ws2, width, ws3, ws4, tail :| DeclShape(s, d, ws1, kind, ws2, width, ws3, ws4, tail);
      VarAtAccepted(ws1, kind, ws2, width, ws3, d.id, ws4, d.name, tail);
    }
  }

  /** Whatever the pattern reads at the front of `s` comes from a declaration laid out in the standard way. */
  lemma VarAtRead(s: string)
    requires VarAt(s).Some?
    ensures IsDeclText(s, VarAt(s).value)
  {
    var d := VarAt(s).value;
    var k := SpaceThenRun(s[4..], NotSpace).value;
    var ws1 := s[4..][..Span(s[4..], 0, IsSpace)];
    VarHead(s);
    FieldsRead(k.rest);
    var ws2, width, ws3, ws4, tail :| FieldsShape(k.rest, d, ws2, width, ws3, ws4, tail);
    DeclJoin(s, d, ws1, k.text, k.rest, ws2, width, ws3, ws4, tail);
  }

  /** The front of a matched declaration: `$var`, blanks and the type, then the fields DeclFields reads. */
  lemma VarHead(s: string)
    requires VarAt(s).Some?
    ensures var k := SpaceThenRun(s[4..], NotSpace).value;
      var ws1 := s[4..][..Span(s[4..], 0, IsSpace)];
      && |ws1| > 0 && IsBlank(ws1) && IsToken(k.text)
      && s == "$var" + (ws1 + k.text + k.rest) && DeclFields(k.rest) == VarAt(s)
  {
    SpaceThenRunSplits(s[4..], NotSpace);
    assert s[..4] == "$var";
    assert s == s[..4] + s[4..];
  }

  /** The type and its blanks in front of fields laid out in the standard way make a declaration. */
  lemma DeclJoin(s: string, d: VarDecl, ws1: string, kind: string, r: string,
                 ws2: string, width: string, ws3: string, ws4: string, tail: string)
    requires |ws1| > 0 && IsBlank(ws1) && IsToken(kind) && s == "$var" + (ws1 + kind + r)
    requires FieldsShape(r, d, ws2, width, ws3, ws4, tail)
    ensures DeclShape(s, d, ws1, kind, ws2, width, ws3, ws4, tail)
  {
  }

  /** The fields after the type, laid out from these pieces, each of the kind the pattern asks for. */
  ghost predicate FieldsShape(s: string, d: VarDecl, ws2: string, width: string, ws3: string, ws4: string, tail: string) {
    && |ws2| > 0 && IsBlank(ws2) && |ws3| > 0 && IsBlank(ws3) && |ws4| > 0 && IsBlank(ws4)
    && IsDigits(width) && IsToken(d.id) && IsToken(d.name)
    && (tail == [] || IsSpace(tail[0]))
    && d.width == NumeralValue(width, 10)
    && s == ws2 + width + (ws3 + d.id + (ws4 + d.name + tail))
  }

  /** Whatever DeclFields reads comes from fields laid out in the standard way. */
  lemma FieldsRead(s: string)
    requires DeclFields(s).Some?
    ensures exists ws2, width, ws3, ws4, tail :: FieldsShape(s, DeclFields(s).value, ws2, width, ws3, ws4, tail)
  {
    var d := DeclFields(s).value;
    var w := SpaceThenRun(s, IsDigit).value;
    var i := SpaceThenRun(w.rest, NotSpace).value;
    var n := SpaceThenRun(i.rest, NotSpace).value;
    var ws2 := s[..Span(s, 0, IsSpace)];
    var ws3 := w.rest[..Span(w.rest, 0, IsSpace)];
    var ws4 := i.rest[..Span(i.rest, 0, IsSpace)];
    assert |ws2| > 0 && IsBlank(ws2) && s == ws2 + w.text + w.rest by {
      SpaceThenRunSplits(s, IsDigit);
    }
    assert |ws3| > 0 && IsBlank(ws3) && w.rest == ws3 + i.text + i.rest by {
      SpaceThenRunSplits(w.rest, NotSpace);
    }
    assert |ws4| > 0 && IsBlank(ws4) && i.rest == ws4 + n.text + n.rest by {
      SpaceThenRunSplits(i.rest, NotSpace);
    }
    assert d == VarDecl(NumeralValue(w.text, 10), i.text, n.text);
    assert IsDigits(w.text);
    assert n.rest == [] || IsSpace(n.rest[0]);
    assert FieldsShape(s, d, ws2, w.text, ws3, ws4, n.rest);
  }

  /**
   * Soundness of the search: what it finds is read from a declaration in the
   * standard layout that starts somewhere in `t`, with no match before it.
   */
  lemma MatchVarSound(t: string)
    requires MatchVar(t).Some?
    ensures exists j :: 0 <= j <= |t| && IsDeclText(t[j..], MatchVar(t).value) && NoVarBetween(t, 0, j)
  {
    var j :| 0 <= j <= |t| && VarAt(t[j..]) == MatchVar(t) && NoVarBetween(t, 0, j);
    VarAtRead(t[j..]);
  }
}
