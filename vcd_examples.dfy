/**
 * A dump with one scalar and one vector signal, read end to end: both are
 * declared, the definitions end, and each changes at two timestamps. The
 * waveform parseVCD returns follows line by line from the lemmas of module
 * VcdProperties and the acceptance lemmas of module VcdSyntax.
 */
module VcdExamples {
  import opened Wrappers
  import opened Text
  import opened VcdSyntax
  import opened Vcd
  import opened VcdProperties

  /** `$var wire <width> <id> <name> $end`. */
  function DeclLine(width: string, id: string, name: string): string {
    DeclText(" ", "wire", " ", width, " ", id, " ", name, " $end")
  }

  lemma DeclIsDeclaration(width: string, id: string, name: string)
    requires IsDigits(width) && IsToken(id) && IsToken(name)
    ensures var t := Trim(DeclLine(width, id, name));
      StartsWith(t, "$var") && MatchVar(t) == Some(VarDecl(NumeralValue(width, 10), id, name))
  {
    DeclBare(width, id, name);
    DeclMatches(width, id, name);
  }

  lemma DeclBare(width: string, id: string, name: string)
    ensures Trim(DeclLine(width, id, name)) == DeclLine(width, id, name)
    ensures StartsWith(DeclLine(width, id, name), "$var")
  {
    var line := DeclLine(width, id, name);
    assert line[0] == '$' && line[|line| - 1] == 'd';
    TrimBare(line);
    assert line[..4] == "$var";
  }

  lemma DeclMatches(width: string, id: string, name: string)
    requires IsDigits(width) && IsToken(id) && IsToken(name)
    ensures MatchVar(DeclLine(width, id, name)) == Some(VarDecl(NumeralValue(width, 10), id, name))
  {
    assert IsToken("wire") by { assert forall k :: 0 <= k < 4 ==> !IsSpace("wire"[k]); }
    VarAccepted(" ", "wire", " ", width, " ", id, " ", name, " $end");
  }

  lemma ScalarIsChange(v: char, id: string)
    requires IsValueChar(v) && IsToken(id)
    ensures IsChange([v] + id, ValueChange([v], id))
  {
    var line := [v] + id;
    assert line[0] == v && line[|line| - 1] == id[|id| - 1];
    TrimBare(line);
    ScalarAccepted(v, id);
  }

  lemma VectorIsChange(bits: string, id: string)
    requires IsBits(bits) && IsToken(id)
    ensures IsChange("b" + bits + " " + id, ValueChange(bits, id))
  {
    var line := "b" + bits + " " + id;
    TrimBare(line);
    VectorAccepted(bits, " ", id);
    assert !IsValueChar(line[0]);
  }

  /** Appends `c` to the changes of signal `n`. */
  function Append(signals: map<string, Signal>, n: string, c: Change): map<string, Signal>
    requires n in signals
  {
    signals[n := signals[n].(values := signals[n].values + [c])]
  }

  // What each line of the dump does to the reader's state.

  lemma DeclStep(st: ParserState, width: string, id: string, name: string)
    requires IsDigits(width) && IsToken(id) && IsToken(name)
    ensures Step(st, DeclLine(width, id, name))
         == st.(idMap := st.idMap[id := name], signals := st.signals[name := Signal(NumeralValue(width, 10), [])])
  {
    DeclIsDeclaration(width, id, name);
  }

  lemma MarkerStep(st: ParserState)
    ensures Step(st, EndDefinitions) == st.(inDefs := false)
  {
    TrimBare(EndDefinitions);
    MarkerIsNoDeclaration();
  }

  lemma StampStep(st: ParserState, digits: string)
    requires !st.inDefs && IsDigits(digits)
    ensures Step(st, "#" + digits) == st.(time := Int(NumeralValue(digits, 10)))
  {
    var line := "#" + digits;
    TrimBare(line);
    assert line[1..] == digits;
    ParseIntDecimal(digits, "");
    assert digits + "" == digits;
    NotStartsWith(line, "$var");
    assert line != EndDefinitions by { assert EndDefinitions[0] == '$'; }
  }

  lemma ScalarStep(st: ParserState, v: char, id: string)
    requires !st.inDefs && IsValueChar(v) && IsToken(id)
    requires id in st.idMap && st.idMap[id] in st.signals
    ensures Step(st, [v] + id) == st.(signals := Append(st.signals, st.idMap[id], Change(st.time, [v])))
  {
    ScalarIsChange(v, id);
    ChangeIsNoDirective([v] + id, ValueChange([v], id));
    StepOnChangeLine(st, [v] + id);
  }

  lemma VectorStep(st: ParserState, bits: string, id: string)
    requires !st.inDefs && IsBits(bits) && IsToken(id)
    requires id in st.idMap && st.idMap[id] in st.signals
    ensures Step(st, "b" + bits + " " + id) == st.(signals := Append(st.signals, st.idMap[id], Change(st.time, bits)))
  {
    VectorIsChange(bits, id);
    ChangeIsNoDirective("b" + bits + " " + id, ValueChange(bits, id));
    StepOnChangeLine(st, "b" + bits + " " + id);
  }

  /** Reading three more lines is three steps. */
  lemma RunThree(lines: seq<string>, x: string, y: string, z: string)
    ensures Run(lines + [x, y, z]) == Step(Step(Step(Run(lines), x), y), z)
  {
    ThreeSplit(lines, x, y, z);
    RunSnoc(lines, x);
    RunSnoc(lines + [x], y);
    RunSnoc(lines + [x] + [y], z);
  }

  lemma ThreeSplit(lines: seq<string>, x: string, y: string, z: string)
    ensures lines + [x, y, z] == lines + [x] + [y] + [z]
  {
  }

  /** Two declarations and the marker. */
  lemma HeaderRead(wA: string, idA: string, nameA: string, wB: string, idB: string, nameB: string)
    requires IsDigits(wA) && IsToken(idA) && IsToken(nameA)
    requires IsDigits(wB) && IsToken(idB) && IsToken(nameB)
    ensures Run([DeclLine(wA, idA, nameA), DeclLine(wB, idB, nameB), EndDefinitions])
         == ParserState(map[nameA := Signal(NumeralValue(wA, 10), [])][nameB := Signal(NumeralValue(wB, 10), [])],
                        map[idA := nameA][idB := nameB], Int(0), false)
  {
    RunThree([], DeclLine(wA, idA, nameA), DeclLine(wB, idB, nameB), EndDefinitions);
    assert [] + [DeclLine(wA, idA, nameA), DeclLine(wB, idB, nameB), EndDefinitions] == [DeclLine(wA, idA, nameA), DeclLine(wB, idB, nameB), EndDefinitions];
    DeclStep(Start, wA, idA, nameA);
    var s1 := ParserState(map[nameA := Signal(NumeralValue(wA, 10), [])], map[idA := nameA], Int(0), true);
    DeclStep(s1, wB, idB, nameB);
    var s2 := ParserState(map[nameA := Signal(NumeralValue(wA, 10), [])][nameB := Signal(NumeralValue(wB, 10), [])],
                          map[idA := nameA][idB := nameB], Int(0), true);
    MarkerStep(s2);
  }

  /** A timestamp, then a scalar change to `idA` and a vector change to `idB`, both stamped with it. */
  lemma SlotRead(lines: seq<string>, st: ParserState, t: string, a: char, idA: string, bits: string, idB: string)
    requires Run(lines) == st && !st.inDefs
    requires IsDigits(t) && IsValueChar(a) && IsToken(idA) && IsBits(bits) && IsToken(idB)
    requires idA in st.idMap && st.idMap[idA] in st.signals
    requires idB in st.idMap && st.idMap[idB] in st.signals
    ensures var time := Int(NumeralValue(t, 10));
      Run(lines + ["#" + t, [a] + idA, "b" + bits + " " + idB])
      == st.(time := time, signals := Append(Append(st.signals, st.idMap[idA], Change(time, [a])), st.idMap[idB], Change(time, bits)))
  {
    var time := Int(NumeralValue(t, 10));
    RunThree(lines, "#" + t, [a] + idA, "b" + bits + " " + idB);
    StampStep(st, t);
    var s1 := st.(time := time);
    ScalarStep(s1, a, idA);
    var s2 := s1.(signals := Append(st.signals, st.idMap[idA], Change(time, [a])));
    VectorStep(s2, bits, idB);
  }

  /** The dump of TwoSignalWaveform: two declarations, the marker, and two time slots. */
  function TwoSignalDump(wA: string, idA: string, nameA: string, wB: string, idB: string, nameB: string,
                         t0: string, a0: char, bits0: string, t1: string, a1: char, bits1: string): seq<string>
  {
    [DeclLine(wA, idA, nameA), DeclLine(wB, idB, nameB), EndDefinitions]
      + ["#" + t0, [a0] + idA, "b" + bits0 + " " + idB]
      + ["#" + t1, [a1] + idA, "b" + bits1 + " " + idB]
  }

  /** A slot on a state that holds exactly the two signals appends one change to each. */
  lemma SlotOnTwo(lines: seq<string>, nameA: string, widthA: nat, valsA: seq<Change>, nameB: string, widthB: nat, valsB: seq<Change>,
                  ids: map<string, string>, time: IntOrNaN, t: string, a: char, idA: string, bits: string, idB: string)
    requires Run(lines) == ParserState(map[nameA := Signal(widthA, valsA)][nameB := Signal(widthB, valsB)], ids, time, false)
    requires nameA != nameB && idA in ids && ids[idA] == nameA && idB in ids && ids[idB] == nameB
    requires IsDigits(t) && IsValueChar(a) && IsToken(idA) && IsBits(bits) && IsToken(idB)
    ensures var stamp := Int(NumeralValue(t, 10));
      Run(lines + ["#" + t, [a] + idA, "b" + bits + " " + idB])
      == ParserState(map[nameA := Signal(widthA, valsA + [Change(stamp, [a])])][nameB := Signal(widthB, valsB + [Change(stamp, bits)])],
                     ids, stamp, false)
  {
    var st := Run(lines);
    SlotRead(lines, st, t, a, idA, bits, idB);
    var stamp := Int(NumeralValue(t, 10));
    AppendBoth(nameA, Signal(widthA, valsA), nameB, Signal(widthB, valsB), Change(stamp, [a]), Change(stamp, bits));
  }

  lemma AppendBoth(nameA: string, sigA: Signal, nameB: string, sigB: Signal, cA: Change, cB: Change)
    requires nameA != nameB
    ensures Append(Append(map[nameA := sigA][nameB := sigB], nameA, cA), nameB, cB)
         == map[nameA := sigA.(values := sigA.values + [cA])][nameB := sigB.(values := sigB.values + [cB])]
  {
  }

  /** The two-slot dump is the header followed by the first slot, then the second. */
  lemma DumpSplit(wA: string, idA: string, nameA: string, wB: string, idB: string, nameB: string,
                  t0: string, a0: char, bits0: string, t1: string, a1: char, bits1: string)
    ensures TwoSignalDump(wA, idA, nameA, wB, idB, nameB, t0, a0, bits0, t1, a1, bits1)
         == ([DeclLine(wA, idA, nameA), DeclLine(wB, idB, nameB), EndDefinitions] + ["#" + t0, [a0] + idA, "b" + bits0 + " " + idB])
            + ["#" + t1, [a1] + idA, "b" + bits1 + " " + idB]
  {
  }

  lemma ChangePair(c0: Change, c1: Change)
    ensures [] + [c0] == [c0] && [c0] + [c1] == [c0, c1]
  {
  }

  lemma TwoSignalRun(wA: string, idA: string, nameA: string, wB: string, idB: string, nameB: string,
                     t0: string, a0: char, bits0: string, t1: string, a1: char, bits1: string)
    requires IsDigits(wA) && IsToken(idA) && IsToken(nameA)
    requires IsDigits(wB) && IsToken(idB) && IsToken(nameB)
    requires idA != idB && nameA != nameB
    requires IsDigits(t0) && IsValueChar(a0) && IsBits(bits0)
    requires IsDigits(t1) && IsValueChar(a1) && IsBits(bits1)
    ensures Run(TwoSignalDump(wA, idA, nameA, wB, idB, nameB, t0, a0, bits0, t1, a1, bits1)).signals
         == map[nameA := Signal(NumeralValue(wA, 10), [Change(Int(NumeralValue(t0, 10)), [a0]), Change(Int(NumeralValue(t1, 10)), [a1])]),
                nameB := Signal(NumeralValue(wB, 10), [Change(Int(NumeralValue(t0, 10)), bits0), Change(Int(NumeralValue(t1, 10)), bits1)])]
  {
    var time0, time1 := Int(NumeralValue(t0, 10)), Int(NumeralValue(t1, 10));
    var widthA, widthB := NumeralValue(wA, 10), NumeralValue(wB, 10);
    var ids := map[idA := nameA][idB := nameB];
    var header := [DeclLine(wA, idA, nameA), DeclLine(wB, idB, nameB), EndDefinitions];
    var slot0 := ["#" + t0, [a0] + idA, "b" + bits0 + " " + idB];
    var slot1 := ["#" + t1, [a1] + idA, "b" + bits1 + " " + idB];
    HeaderRead(wA, idA, nameA, wB, idB, nameB);
    SlotOnTwo(header, nameA, widthA, [], nameB, widthB, [], ids, Int(0), t0, a0, idA, bits0, idB);
    ChangePair(Change(time0, [a0]), Change(time1, [a1]));
    ChangePair(Change(time0, bits0), Change(time1, bits1));
    SlotOnTwo(header + slot0, nameA, widthA, [Change(time0, [a0])], nameB, widthB, [Change(time0, bits0)], ids, time0, t1, a1, idA, bits1, idB);
    DumpSplit(wA, idA, nameA, wB, idB, nameB, t0, a0, bits0, t1, a1, bits1);
  }

  /**
   * A scalar signal A and a vector signal B, declared and then changed at
   * two timestamps: parseVCD returns both, each with its declared width and
   * its two entries in file order, stamped with the two times.
   */
  lemma TwoSignalWaveform(wA: string, idA: string, nameA: string, wB: string, idB: string, nameB: string,
                          t0: string, a0: char, bits0: string, t1: string, a1: char, bits1: string)
    requires IsDigits(wA) && IsToken(idA) && IsToken(nameA)
    requires IsDigits(wB) && IsToken(idB) && IsToken(nameB)
    requires idA != idB && nameA != nameB
    requires IsDigits(t0) && IsValueChar(a0) && IsBits(bits0)
    requires IsDigits(t1) && IsValueChar(a1) && IsBits(bits1)
    ensures Parsed(TwoSignalDump(wA, idA, nameA, wB, idB, nameB, t0, a0, bits0, t1, a1, bits1))
         == Some(map[nameA := Signal(NumeralValue(wA, 10), [Change(Int(NumeralValue(t0, 10)), [a0]), Change(Int(NumeralValue(t1, 10)), [a1])]),
                     nameB := Signal(NumeralValue(wB, 10), [Change(Int(NumeralValue(t0, 10)), bits0), Change(Int(NumeralValue(t1, 10)), bits1)])])
  {
    TwoSignalRun(wA, idA, nameA, wB, idB, nameB, t0, a0, bits0, t1, a1, bits1);
    ReportBoth(nameA, Signal(NumeralValue(wA, 10), [Change(Int(NumeralValue(t0, 10)), [a0]), Change(Int(NumeralValue(t1, 10)), [a1])]),
               nameB, Signal(NumeralValue(wB, 10), [Change(Int(NumeralValue(t0, 10)), bits0), Change(Int(NumeralValue(t1, 10)), bits1)]));
  }

  /** When both signals hold a change, the deleting pass keeps both. */
  lemma ReportBoth(nameA: string, sigA: Signal, nameB: string, sigB: Signal)
    requires nameA != nameB && sigA.values != [] && sigB.values != []
    ensures Report(map[nameA := sigA, nameB := sigB]) == Some(map[nameA := sigA, nameB := sigB])
  {
    var m := map[nameA := sigA, nameB := sigB];
    assert nameA in m;
    assert Report(m).Some?;
    assert Report(m).value == m;
  }
}
