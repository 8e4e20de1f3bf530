/**
 * What parseVCD guarantees about the waveform it returns, stated over the
 * specification functions of module Vcd (which ParseVcd is proved to
 * compute): when definitions end, which time an entry carries, which lines
 * are skipped, what a repeated declaration does, and that every recorded
 * value is value text in time order.
 */
module VcdProperties {
  import opened Wrappers
  import opened Text
  import opened VcdSyntax
  import opened Vcd

  lemma RunSnoc(lines: seq<string>, line: string)
    ensures Run(lines + [line]) == Step(Run(lines), line)
  {
    assert (lines + [line])[..|lines|] == lines;
  }

  lemma LastSplit(lines: seq<string>)
    requires lines != []
    ensures lines == lines[..|lines| - 1] + [lines[|lines| - 1]]
  {
  }

  lemma MarkerIsNoDeclaration()
    ensures !StartsWith(EndDefinitions, "$var")
  {
    assert EndDefinitions[1] == 'e';
  }

  // One line at a time: what Step does to each part of the state.

  /** The trimmed line is a value change, scalar or vector, and `c` is what it carries. */
  predicate IsChange(line: string, c: ValueChange) {
    MatchScalar(Trim(line)) == Some(c) || (MatchScalar(Trim(line)).None? && MatchVector(Trim(line)) == Some(c))
  }

  /** A change line is neither a declaration, the marker nor a timestamp. */
  lemma ChangeIsNoDirective(line: string, c: ValueChange)
    requires IsChange(line, c)
    ensures var t := Trim(line); !StartsWith(t, "$var") && t != EndDefinitions && !StartsWith(t, "#")
  {
    var t := Trim(line);
    if MatchScalar(t) == Some(c) {
      assert t[0] == c.val[0];
      assert IsValueChar(t[0]);
    } else {
      var ws :| |ws| > 0 && IsBlank(ws) && t == "b" + c.val + ws + c.id;
      assert t[0] == 'b';
    }
    NotStartsWith(t, "$var");
    NotStartsWith(t, "#");
    assert EndDefinitions[0] == '$';
  }

  lemma StepInDefs(st: ParserState, line: string)
    ensures Step(st, line).inDefs <==> st.inDefs && Trim(line) != EndDefinitions
  {
    MarkerIsNoDeclaration();
    var t := Trim(line);
    if StartsWith(t, "$var") {
      assert t != EndDefinitions;
    } else if t == EndDefinitions {
    } else if st.inDefs {
    } else if StartsWith(t, "#") {
    } else {
      StepOnChangeLine(st, line);
    }
  }

  /** What a line that is not a declaration, the marker, or a timestamp does after the definitions. */
  lemma StepOnChangeLine(st: ParserState, line: string)
    requires !StartsWith(Trim(line), "$var") && Trim(line) != EndDefinitions && !st.inDefs && !StartsWith(Trim(line), "#")
    ensures Step(st, line) == match MatchScalar(Trim(line))
                              case Some(c) => Record(st, c)
                              case None => (match MatchVector(Trim(line))
                                            case Some(c) => Record(st, c)
                                            case None => st)
  {
  }

  /** Every identifier in the table names a declared signal. */
  predicate IdsResolve(st: ParserState) {
    forall id :: id in st.idMap ==> st.idMap[id] in st.signals
  }

  lemma StepIdsResolve(st: ParserState, line: string)
    requires IdsResolve(st)
    ensures IdsResolve(Step(st, line))
  {
    var t := Trim(line);
    if StartsWith(t, "$var") || t == EndDefinitions || st.inDefs || StartsWith(t, "#") {
    } else {
      StepOnChangeLine(st, line);
    }
  }

  /** Every recorded value is value text. */
  predicate ValuesValid(st: ParserState) {
    forall n, i :: n in st.signals && 0 <= i < |st.signals[n].values| ==> IsBits(st.signals[n].values[i].val)
  }

  lemma StepValuesValid(st: ParserState, line: string)
    requires ValuesValid(st)
    ensures ValuesValid(Step(st, line))
  {
    var t := Trim(line);
    if StartsWith(t, "$var") || t == EndDefinitions || st.inDefs || StartsWith(t, "#") {
    } else {
      StepOnChangeLine(st, line);
      var sc, vc := MatchScalar(t), MatchVector(t);
      if sc.Some? {
        assert IsBits(sc.value.val);
        RecordValuesValid(st, sc.value);
      } else if vc.Some? {
        RecordValuesValid(st, vc.value);
      }
    }
  }

  lemma RecordValuesValid(st: ParserState, c: ValueChange)
    requires ValuesValid(st) && IsBits(c.val)
    ensures ValuesValid(Record(st, c))
  {
    if c.id in st.idMap && st.idMap[c.id] in st.signals {
      var name := st.idMap[c.id];
      var vals := st.signals[name].values + [Change(st.time, c.val)];
      assert forall i :: 0 <= i < |vals| ==> IsBits(vals[i].val);
    }
  }

  /** Time still 0 and nothing recorded. */
  predicate Quiet(st: ParserState) {
    st.time == Int(0) && forall n :: n in st.signals ==> st.signals[n].values == []
  }

  lemma StepQuiet(st: ParserState, line: string)
    requires st.inDefs && Quiet(st)
    ensures Quiet(Step(st, line))
  {
  }

  /** The line is a timestamp that the reader takes in state `st`. */
  predicate TakesStamp(st: ParserState, line: string) {
    !st.inDefs && StartsWith(Trim(line), "#")
  }

  lemma StepTime(st: ParserState, line: string)
    ensures TakesStamp(st, line) ==> Step(st, line).time == ParseInt(Trim(line)[1..])
    ensures !TakesStamp(st, line) ==> Step(st, line).time == st.time
  {
    var t := Trim(line);
    if StartsWith(t, "$var") || t == EndDefinitions {
      assert !StartsWith(t, "#") by { assert t[0] == '$'; }
    } else if st.inDefs || StartsWith(t, "#") {
    } else {
      StepOnChangeLine(st, line);
    }
  }

  /** Entries with integer times, in non-decreasing order, none after `bound`. */
  predicate Chronological(values: seq<Change>, bound: int) {
    && (forall i :: 0 <= i < |values| ==> values[i].time.Int? && values[i].time.value <= bound)
    && (forall i, j :: 0 <= i < j < |values| ==> values[i].time.value <= values[j].time.value)
  }

  /** The running time is an integer and every signal is chronological up to it. */
  predicate InOrder(st: ParserState) {
    st.time.Int? && forall n :: n in st.signals ==> Chronological(st.signals[n].values, st.time.value)
  }

  lemma StepInOrder(st: ParserState, line: string)
    requires InOrder(st)
    requires TakesStamp(st, line) ==> ParseInt(Trim(line)[1..]).Int? && st.time.value <= ParseInt(Trim(line)[1..]).value
    ensures InOrder(Step(st, line))
  {
    var t := Trim(line);
    if StartsWith(t, "$var") || t == EndDefinitions || st.inDefs {
    } else if StartsWith(t, "#") {
      ClockForward(st, ParseInt(t[1..]));
    } else {
      StepOnChangeLine(st, line);
      var sc, vc := MatchScalar(t), MatchVector(t);
      if sc.Some? {
        RecordInOrder(st, sc.value);
      } else if vc.Some? {
        RecordInOrder(st, vc.value);
      }
    }
  }

  /** Moving the clock forward keeps every signal chronological. */
  lemma ClockForward(st: ParserState, time: IntOrNaN)
    requires InOrder(st) && time.Int? && st.time.value <= time.value
    ensures InOrder(st.(time := time))
  {
    forall n | n in st.signals
      ensures Chronological(st.signals[n].values, time.value)
    {
      ChronologicalLater(st.signals[n].values, st.time.value, time.value);
    }
  }

  /** Recording a change at the running time keeps every signal chronological. */
  lemma RecordInOrder(st: ParserState, c: ValueChange)
    requires InOrder(st)
    ensures InOrder(Record(st, c))
  {
    if c.id in st.idMap && st.idMap[c.id] in st.signals {
      var name := st.idMap[c.id];
      ChronologicalAppend(st.signals[name].values, st.time.value, Change(st.time, c.val));
    }
  }

  lemma ChronologicalLater(values: seq<Change>, bound: int, later: int)
    requires Chronological(values, bound) && bound <= later
    ensures Chronological(values, later)
  {
  }

  lemma ChronologicalAppend(values: seq<Change>, bound: int, c: Change)
    requires Chronological(values, bound) && c.time == Int(bound)
    ensures Chronological(values + [c], bound)
  {
  }

  // Over a whole file: each property follows from its one-line version by
  // induction on the lines read.

  /** Some line of `lines` is, once trimmed, the end-of-definitions marker. */
  predicate EndSeen(lines: seq<string>) {
    exists k :: 0 <= k < |lines| && Trim(lines[k]) == EndDefinitions
  }

  lemma EndSeenSnoc(lines: seq<string>, line: string)
    ensures EndSeen(lines + [line]) <==> EndSeen(lines) || Trim(line) == EndDefinitions
  {
    var all := lines + [line];
    if EndSeen(all) && Trim(line) != EndDefinitions {
      var k :| 0 <= k < |all| && Trim(all[k]) == EndDefinitions;
      assert k < |lines| && all[k] == lines[k];
    }
    if EndSeen(lines) {
      var k :| 0 <= k < |lines| && Trim(lines[k]) == EndDefinitions;
      assert all[k] == lines[k];
    }
    if Trim(line) == EndDefinitions {
      assert all[|lines|] == line;
    }
  }

  /**
   * The reader is inside the definitions exactly until a line that trims to
   * `$enddefinitions $end` has been read; nothing else ends them, and
   * nothing reopens them.
   */
  lemma {:induction false} InDefinitionsUntilEnd(lines: seq<string>)
    ensures Run(lines).inDefs <==> !EndSeen(lines)
  {
    if lines != [] {
      var init, last := lines[..|lines| - 1], lines[|lines| - 1];
      InDefinitionsUntilEnd(init);
      LastSplit(lines);
      RunSnoc(init, last);
      StepInDefs(Run(init), last);
      EndSeenSnoc(init, last);
    }
  }

  /**
   * While inside the definitions the clock stays at 0 and no signal has a
   * recorded change: timestamps and value changes before the marker are lost.
   */
  lemma {:induction false} QuietUntilEnd(lines: seq<string>)
    ensures !EndSeen(lines) ==> Quiet(Run(lines))
  {
    if lines != [] {
      var init, last := lines[..|lines| - 1], lines[|lines| - 1];
      QuietUntilEnd(init);
      LastSplit(lines);
      InDefinitionsUntilEnd(init);
      RunSnoc(init, last);
      EndSeenSnoc(init, last);
      if !EndSeen(lines) {
        StepQuiet(Run(init), last);
      }
    }
  }

  /** A line other than a declaration or the marker, read inside the definitions, changes nothing. */
  lemma IgnoredInDefinitions(lines: seq<string>, line: string)
    requires !EndSeen(lines)
    requires !StartsWith(Trim(line), "$var") && Trim(line) != EndDefinitions
    ensures Run(lines + [line]) == Run(lines)
  {
    InDefinitionsUntilEnd(lines);
    RunSnoc(lines, line);
  }

  /** The marker ends the definitions and changes nothing else. */
  lemma EndMarkerRead(lines: seq<string>, line: string)
    requires Trim(line) == EndDefinitions
    ensures Run(lines + [line]) == Run(lines).(inDefs := false)
  {
    MarkerIsNoDeclaration();
    RunSnoc(lines, line);
  }

  /** After the definitions, a `#` line sets the running time to the number after `#`, and changes nothing else. */
  lemma StampRead(lines: seq<string>, line: string)
    requires EndSeen(lines) && StartsWith(Trim(line), "#")
    ensures Run(lines + [line]) == Run(lines).(time := ParseInt(Trim(line)[1..]))
  {
    InDefinitionsUntilEnd(lines);
    RunSnoc(lines, line);
    StepStamp(Run(lines), line);
  }

  lemma StepStamp(st: ParserState, line: string)
    requires !st.inDefs && StartsWith(Trim(line), "#")
    ensures Step(st, line) == st.(time := ParseInt(Trim(line)[1..]))
  {
    var t := Trim(line);
    assert t[0] == '#';
    NotStartsWith(t, "$var");
    assert t != EndDefinitions by { assert EndDefinitions[0] == '$'; }
  }

  /** Line `k` is a timestamp the reader takes: it starts with `#` and the definitions ended before it. */
  predicate IsStampAt(lines: seq<string>, k: nat)
    requires k < |lines|
  {
    StartsWith(Trim(lines[k]), "#") && EndSeen(lines[..k])
  }

  /** The number written on a timestamp line. */
  function StampValue(line: string): IntOrNaN
    requires StartsWith(Trim(line), "#")
  {
    ParseInt(Trim(line)[1..])
  }

  /** The time in force after `lines`: that of the last timestamp taken, or 0 when there is none. */
  function LastStamp(lines: seq<string>): IntOrNaN {
    if lines == [] then Int(0)
    else if IsStampAt(lines, |lines| - 1) then StampValue(lines[|lines| - 1])
    else LastStamp(lines[..|lines| - 1])
  }

  /** The reader's running time is the value of the last timestamp taken, or 0. */
  lemma {:induction false} TimeIsLastStamp(lines: seq<string>)
    ensures Run(lines).time == LastStamp(lines)
  {
    if lines != [] {
      var init, last := lines[..|lines| - 1], lines[|lines| - 1];
      TimeIsLastStamp(init);
      LastSplit(lines);
      InDefinitionsUntilEnd(init);
      RunSnoc(init, last);
      StepTime(Run(init), last);
    }
  }

  /**
   * A declaration, wherever it appears, binds its identifier to its name and
   * (re)creates that signal with the declared width and no changes; every
   * other signal is left as it was.
   */
  lemma Redeclaration(lines: seq<string>, line: string, d: VarDecl)
    requires StartsWith(Trim(line), "$var") && MatchVar(Trim(line)) == Some(d)
    ensures Run(lines + [line]) == Run(lines).(idMap := Run(lines).idMap[d.id := d.name], signals := Run(lines).signals[d.name := Signal(d.width, [])])
    ensures Run(lines + [line]).signals[d.name].values == []
    ensures forall n :: n != d.name ==> (n in Run(lines + [line]).signals <==> n in Run(lines).signals)
    ensures forall n :: n != d.name && n in Run(lines).signals ==> Run(lines + [line]).signals[n] == Run(lines).signals[n]
  {
    RunSnoc(lines, line);
  }

  /** Every declared identifier names a signal in the table, so the guard on the signal table never fails. */
  lemma {:induction false} DeclaredIdsResolve(lines: seq<string>)
    ensures IdsResolve(Run(lines))
  {
    if lines != [] {
      var init, last := lines[..|lines| - 1], lines[|lines| - 1];
      DeclaredIdsResolve(init);
      LastSplit(lines);
      RunSnoc(init, last);
      StepIdsResolve(Run(init), last);
    }
  }

  /**
   * After the definitions, a change to a declared identifier appends one
   * entry to that identifier's signal, stamped with the time of the last
   * timestamp (or 0); nothing else changes.
   */
  lemma ChangeRecorded(lines: seq<string>, line: string, c: ValueChange)
    requires EndSeen(lines) && IsChange(line, c)
    requires c.id in Run(lines).idMap
    ensures var n := Run(lines).idMap[c.id];
      && n in Run(lines).signals
      && Run(lines + [line]) == Run(lines).(signals := Run(lines).signals[n := Signal(Run(lines).signals[n].width, Run(lines).signals[n].values + [Change(LastStamp(lines), c.val)])])
  {
    ChangeIsNoDirective(line, c);
    InDefinitionsUntilEnd(lines);
    TimeIsLastStamp(lines);
    DeclaredIdsResolve(lines);
    RunSnoc(lines, line);
    StepOnChangeLine(Run(lines), line);
  }

  /** A change to an identifier that was never declared is skipped without any effect. */
  lemma UndeclaredChangeSkipped(lines: seq<string>, line: string, c: ValueChange)
    requires IsChange(line, c)
    requires c.id !in Run(lines).idMap
    ensures Run(lines + [line]) == Run(lines)
  {
    ChangeIsNoDirective(line, c);
    RunSnoc(lines, line);
    if !Run(lines).inDefs {
      StepOnChangeLine(Run(lines), line);
    }
  }

  /** A line that is no declaration, marker, timestamp or change of either form is ignored. */
  lemma UnmatchedLineIgnored(lines: seq<string>, line: string)
    requires !StartsWith(Trim(line), "$var") && Trim(line) != EndDefinitions && !StartsWith(Trim(line), "#")
    requires MatchScalar(Trim(line)).None? && MatchVector(Trim(line)).None?
    ensures Run(lines + [line]) == Run(lines)
  {
    RunSnoc(lines, line);
    if !Run(lines).inDefs {
      StepOnChangeLine(Run(lines), line);
    }
  }

  /** Every recorded value is a non-empty string over `01xzXZ`. */
  lemma {:induction false} ValuesAreValueText(lines: seq<string>)
    ensures ValuesValid(Run(lines))
  {
    if lines != [] {
      var init, last := lines[..|lines| - 1], lines[|lines| - 1];
      ValuesAreValueText(init);
      LastSplit(lines);
      RunSnoc(init, last);
      StepValuesValid(Run(init), last);
    }
  }

  /** No timestamp the reader takes is a NaN or earlier than the time already in force. */
  predicate ClockNeverRewinds(lines: seq<string>) {
    forall k :: 0 <= k < |lines| && IsStampAt(lines, k) ==>
      && StampValue(lines[k]).Int?
      && LastStamp(lines[..k]).Int?
      && LastStamp(lines[..k]).value <= StampValue(lines[k]).value
  }

  lemma ClockNeverRewindsInit(lines: seq<string>)
    requires lines != [] && ClockNeverRewinds(lines)
    ensures ClockNeverRewinds(lines[..|lines| - 1])
  {
    var init := lines[..|lines| - 1];
    forall k | 0 <= k < |init| && IsStampAt(init, k)
      ensures StampValue(init[k]).Int? && LastStamp(init[..k]).Int? && LastStamp(init[..k]).value <= StampValue(init[k]).value
    {
      assert init[..k] == lines[..k] && init[k] == lines[k];
      assert IsStampAt(lines, k);
    }
  }

  /**
   * When the file's timestamps never go back in time, every signal's entries
   * are in non-decreasing time order and none is later than the current time.
   */
  lemma {:induction false} SignalsChronological(lines: seq<string>)
    requires ClockNeverRewinds(lines)
    ensures InOrder(Run(lines))
  {
    if lines != [] {
      var init, last := lines[..|lines| - 1], lines[|lines| - 1];
      ClockNeverRewindsInit(lines);
      SignalsChronological(init);
      LastSplit(lines);
      assert lines[..|lines| - 1] == init;
      TimeIsLastStamp(init);
      InDefinitionsUntilEnd(init);
      RunSnoc(init, last);
      if TakesStamp(Run(init), last) {
        assert IsStampAt(lines, |lines| - 1);
      }
      StepInOrder(Run(init), last);
    }
  }

  /**
   * What the caller receives: every signal in the reported waveform has at
   * least one change, each change carries an integer time and value text, and
   * when the stamps never go back the changes are in time order.
   */
  lemma ReportedChronological(lines: seq<string>)
    requires ClockNeverRewinds(lines)
    ensures Parsed(lines).Some? ==> forall n :: n in Parsed(lines).value ==>
      var values := Parsed(lines).value[n].values;
      && values != []
      && (forall i :: 0 <= i < |values| ==> values[i].time.Int? && IsBits(values[i].val))
      && (forall i, j :: 0 <= i < j < |values| ==> values[i].time.value <= values[j].time.value)
  {
    SignalsChronological(lines);
    ValuesAreValueText(lines);
  }
}
