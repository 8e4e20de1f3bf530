/**
 * parseVCD: the Value Change Dump reader that turns the trace written by the
 * simulation harness into `{ name: { width, values: [{ time, val }] } }`.
 *
 * The reader is a loop over the lines of the file that updates two
 * dictionaries (signal name to signal, short identifier to signal name), a
 * running time and an "inside the definitions" flag, followed by a pass that
 * deletes the signals that recorded nothing. ParseVcd below is that loop;
 * Step, Run and Parsed say, line by line, what it computes.
 */
module Vcd {
  import opened Wrappers
  import opened Text
  import opened VcdSyntax

  /** One entry of a signal's `values`: the running time when the line was read, and the value text. */
  datatype Change = Change(time: IntOrNaN, val: string)

  /** A declared signal: its declared width and its recorded changes, in file order. */
  datatype Signal = Signal(width: nat, values: seq<Change>)

  /** The variables of parseVCD's loop: `signals`, `idMap`, `time` and `inDefs`. */
  datatype ParserState = ParserState(signals: map<string, Signal>, idMap: map<string, string>, time: IntOrNaN, inDefs: bool)

  const EndDefinitions: string := "$enddefinitions $end"

  /** Before the first line: no signals, no identifiers, time 0, inside the definitions. */
  const Start: ParserState := ParserState(map[], map[], Int(0), true)

  /** Appends a change to the signal that its identifier names, when the identifier was declared. */
  function Record(st: ParserState, c: ValueChange): (r: ParserState)
    ensures r.idMap == st.idMap && r.time == st.time && r.inDefs == st.inDefs
    ensures r.signals.Keys == st.signals.Keys
    ensures c.id in st.idMap && st.idMap[c.id] in st.signals ==>
      var sig := st.signals[st.idMap[c.id]];
      r.signals[st.idMap[c.id]] == Signal(sig.width, sig.values + [Change(st.time, c.val)])
    ensures forall n :: n in st.signals && (c.id !in st.idMap || n != st.idMap[c.id]) ==> r.signals[n] == st.signals[n]
  {
    if c.id in st.idMap && st.idMap[c.id] in st.signals then
      var name := st.idMap[c.id];
      var sig := st.signals[name];
      st.(signals := st.signals[name := sig.(values := sig.values + [Change(st.time, c.val)])])
    else
      st
  }

  /** A signal's recorded changes are only ever appended to, or cleared together with a new width by a redeclaration. */
  predicate Kept(before: Signal, after: Signal) {
    after.values == [] || (after.width == before.width && before.values <= after.values)
  }

  /**
   * One iteration of the loop. A `$var` line is handled wherever it appears;
   * timestamps and value changes only once `$enddefinitions $end` was seen;
   * any other line changes nothing.
   */
  function Step(st: ParserState, line: string): (r: ParserState)
    ensures !StartsWith(Trim(line), "$var") ==> r.idMap == st.idMap && r.signals.Keys == st.signals.Keys
    ensures st.signals.Keys <= r.signals.Keys && st.idMap.Keys <= r.idMap.Keys
    ensures forall n :: n in st.signals ==> Kept(st.signals[n], r.signals[n])
  {
    var t := Trim(line);
    if StartsWith(t, "$var") then
      match MatchVar(t)
      case Some(d) => st.(idMap := st.idMap[d.id := d.name], signals := st.signals[d.name := Signal(d.width, [])])
      case None => st
    else if t == EndDefinitions then st.(inDefs := false)
    else if st.inDefs then st
    else if StartsWith(t, "#") then st.(time := ParseInt(t[1..]))
    else
      match MatchScalar(t)
      case Some(c) => Record(st, c)
      case None =>
        match MatchVector(t)
        case Some(c) => Record(st, c)
        case None => st
  }

  /** The loop variables after the given lines. */
  function Run(lines: seq<string>): ParserState {
    if lines == [] then Start else Step(Run(lines[..|lines| - 1]), lines[|lines| - 1])
  }

  /** The deleting pass: keeps exactly the signals with at least one change, unaltered. */
  function Prune(signals: map<string, Signal>): (r: map<string, Signal>)
    ensures forall n :: n in r <==> n in signals && signals[n].values != []
    ensures forall n :: n in r ==> r[n] == signals[n]
  {
    map n | n in signals && signals[n].values != [] :: signals[n]
  }

  /**
   * What parseVCD returns once its loop left `signals`: `null` exactly when no
   * declared signal holds a change, and otherwise every signal that holds one,
   * unaltered, and no other.
   */
  function Report(signals: map<string, Signal>): (r: Option<map<string, Signal>>)
    ensures r.None? <==> forall n :: n in signals ==> signals[n].values == []
    ensures r.Some? ==> forall n :: n in r.value <==> n in signals && signals[n].values != []
    ensures r.Some? ==> forall n :: n in r.value ==> r.value[n] == signals[n]
  {
    var kept := Prune(signals);
    if kept == map[] then
      None
    else
      PrunedWitness(signals);
      Some(kept)
  }

  /** parseVCD on the lines of an existing file. */
  function Parsed(lines: seq<string>): Option<map<string, Signal>> {
    Report(Run(lines).signals)
  }

  /** A non-empty pruned map names a signal that recorded a change. */
  lemma PrunedWitness(signals: map<string, Signal>)
    requires Prune(signals) != map[]
    ensures exists n :: n in signals && signals[n].values != []
  {
    var n :| n in Prune(signals).Keys;
  }

  /** parseVCD on a file that may not exist: `null` when it does not, else its lines as `split('\n')` gives them. */
  function ParsedFile(content: Option<string>): (r: Option<map<string, Signal>>)
    ensures content.None? ==> r.None?
  {
    match content
    case None => None
    case Some(text) => Parsed(SplitLines(text))
  }

  /** The deleting pass of parseVCD: every signal without a recorded change is removed from the map. */
  method DropSilent(signals: map<string, Signal>) returns (kept: map<string, Signal>)
    ensures kept == Prune(signals)
  {
    kept := signals;
    var keys := signals.Keys;
    while keys != {}
      invariant keys <= signals.Keys
      invariant forall n :: n in kept <==> n in signals && (n in keys || signals[n].values != [])
      invariant forall n :: n in kept ==> kept[n] == signals[n]
      decreases keys
    {
      var k :| k in keys;
      if kept[k].values == [] {
        kept := kept - {k};
      }
      keys := keys - {k};
    }
  }

  /** Reading one more line is one more step. */
  lemma RunPrefix(lines: seq<string>, i: nat)
    requires i < |lines|
    ensures Run(lines[..i + 1]) == Step(Run(lines[..i]), lines[i])
  {
    assert lines[..i + 1][..i] == lines[..i];
  }

  /** The reader itself: the loop over the lines, then the deleting pass. */
  method ParseVcd(lines: seq<string>) returns (r: Option<map<string, Signal>>)
    ensures r == Parsed(lines)
  {
    var signals: map<string, Signal> := map[];
    var idMap: map<string, string> := map[];
    var time: IntOrNaN := Int(0);
    var inDefs := true;

    for i := 0 to |lines|
      invariant ParserState(signals, idMap, time, inDefs) == Run(lines[..i])
    {
      RunPrefix(lines, i);
      var t := Trim(lines[i]);

      // signal declaration
      if StartsWith(t, "$var") {
        var m := MatchVar(t);
        if m.Some? {
          idMap := idMap[m.value.id := m.value.name];
          signals := signals[m.value.name := Signal(m.value.width, [])];
        }
        continue;
      }

      if t == EndDefinitions {
        inDefs := false;
        continue;
      }
      if inDefs {
        continue;
      }

      // timestamp
      if StartsWith(t, "#") {
        time := ParseInt(t[1..]);
        continue;
      }

      // scalar change
      var sc := MatchScalar(t);
      if sc.Some? {
        if sc.value.id in idMap && idMap[sc.value.id] in signals {
          var name := idMap[sc.value.id];
          signals := signals[name := signals[name].(values := signals[name].values + [Change(time, sc.value.val)])];
        }
        continue;
      }

      // vector change
      var vc := MatchVector(t);
      if vc.Some? {
        if vc.value.id in idMap && idMap[vc.value.id] in signals {
          var name := idMap[vc.value.id];
          signals := signals[name := signals[name].(values := signals[name].values + [Change(time, vc.value.val)])];
        }
      }
    }
    assert lines[..|lines|] == lines;

    // Remove signals with no transitions
    signals := DropSilent(signals);
    r := if signals == map[] then None else Some(signals);
    assert r == Report(Run(lines).signals);
  }
}
