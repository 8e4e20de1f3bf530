/**
 * runSimulation: the request handler that stages the submitted sources,
 * detects UVM code and a clock port, rewrites each source, runs the three
 * external steps (Verilator, make, the simulation binary) and assembles the
 * JSON answer.
 *
 * The external steps are not modelled; each is represented by what it
 * reported (ExecOutcome), and the trace file it left by its text and size.
 * What remains is which steps run, what they are given, and what the
 * answer says.
 */
module Pipeline {
  import opened Wrappers
  import opened Text
  import Detect
  import Rewrite
  import Vcd

  /** One submitted file: its name and its text. */
  datatype SourceFile = SourceFile(name: string, code: string)

  /** The request fields the handler reads; an absent field is None. */
  datatype Request = Request(code: Option<string>, files: Option<seq<SourceFile>>, top: Option<string>)

  /** What one external command reported: whether it failed, its error message, and its two output streams. */
  datatype ExecOutcome = ExecOutcome(failed: bool, message: string, stdout: string, stderr: string)

  /** The trace file the simulation left: its text and its size in bytes. */
  datatype TraceFile = TraceFile(content: string, size: nat)

  /** The step that failed, for the early answers. */
  datatype Stage = Compile | Build

  /**
   * The JSON answer: the 400 rejection, a failed step (its `errors` text is
   * `report`), or the finished run.
   */
  datatype Response =
    | Rejected(status: nat, error: string)
    | Failed(stage: Stage, report: string)
    | Done(success: bool, errors: Option<string>, output: string,
           signals: Option<map<string, Vcd.Signal>>, vcd: Option<string>)

  /** What the external steps are given: the rewritten sources, the UVM and clock decisions, and the top module. */
  datatype Prepared = Prepared(sources: seq<SourceFile>, uvm: bool, driveClk: bool, top: string)

  const DefaultTop: string := "tb_top"
  const DefaultFile: string := "design.sv"
  const NoCodeError: string := "No code provided"
  const FinishMark: string := "$finish"

  /** The longest `output` the answer carries. */
  const OutputCap: nat := 8000

  /** Traces of this many bytes or more are not sent back: 4 MiB. */
  const TraceCap: nat := 4 * 1024 * 1024

  /** The request carries no source: `code` is absent or empty and `files` is absent or empty. */
  predicate NoCode(req: Request) {
    (req.code.None? || req.code.value == []) && (req.files.None? || req.files.value == [])
  }

  /** The top module: the requested one, `tb_top` when the field is absent. */
  function Top(req: Request): string {
    if req.top.Some? then req.top.value else DefaultTop
  }

  /** The files written to the work directory: the submitted files when there are any, else `code` as design.sv. */
  function Sources(req: Request): (r: seq<SourceFile>)
    requires !NoCode(req)
    ensures |r| >= 1
    ensures req.files.Some? && req.files.value != [] ==> r == req.files.value
    ensures req.files.None? || req.files.value == [] ==> r == [SourceFile(DefaultFile, req.code.value)]
  {
    if req.files.Some? && req.files.value != [] then req.files.value else [SourceFile(DefaultFile, req.code.value)]
  }

  /** The texts of the files, in order. */
  function Texts(files: seq<SourceFile>): (r: seq<string>)
    ensures |r| == |files|
    ensures forall i :: 0 <= i < |files| ==> r[i] == files[i].code
  {
    if files == [] then [] else [files[0].code] + Texts(files[1..])
  }

  /** Every file rewritten in the given mode, under its own name. */
  function RewriteAll(files: seq<SourceFile>, uvm: bool): (r: seq<SourceFile>)
    ensures |r| == |files|
    ensures forall i :: 0 <= i < |files| ==>
      r[i].name == files[i].name && SplitLines(r[i].code) == Rewrite.ProcessLines(SplitLines(files[i].code), uvm)
  {
    if files == [] then [] else [SourceFile(files[0].name, Rewrite.ProcessCode(files[0].code, uvm))] + RewriteAll(files[1..], uvm)
  }

  /**
   * Staging: both tests run over the texts as submitted, then every file is
   * rewritten in the mode the UVM test chose.
   */
  function Prepare(req: Request): (st: Prepared)
    requires !NoCode(req)
    ensures st.uvm == Detect.AnyUvm(Texts(Sources(req)))
    ensures st.driveClk == Detect.AnyClkPort(Texts(Sources(req)))
    ensures st.top == Top(req)
    ensures st.sources == RewriteAll(Sources(req), st.uvm)
    ensures |st.sources| == |Sources(req)| >= 1
  {
    var files := Sources(req);
    var texts := Texts(files);
    var uvm := Detect.AnyUvm(texts);
    Prepared(RewriteAll(files, uvm), uvm, Detect.AnyClkPort(texts), Top(req))
  }

  /** Outside UVM mode, no staged file keeps a line that is only the UVM include or import. */
  lemma PreparedWithoutUvm(req: Request, i: nat)
    requires !NoCode(req) && !Prepare(req).uvm && i < |Prepare(req).sources|
    ensures var lines := SplitLines(Prepare(req).sources[i].code);
      Rewrite.Count(lines, Rewrite.IsUvmInclude) == 0 && Rewrite.Count(lines, Rewrite.IsUvmImport) == 0
  {
    Rewrite.NonUvmStrips(SplitLines(Sources(req)[i].code));
  }

  /**
   * In UVM mode every staged file holds the preamble's include and import
   * lines exactly once, except a file whose only `` `timescale `` lines are
   * its last line, which holds neither.
   */
  lemma PreparedWithUvm(req: Request, i: nat)
    requires !NoCode(req) && Prepare(req).uvm && i < |Prepare(req).sources|
    ensures var lines := SplitLines(Prepare(req).sources[i].code);
      var c := Rewrite.CleanLines(SplitLines(Sources(req)[i].code), true);
      if Rewrite.MentionsTimescale(c) && Rewrite.FirstTimescaleLine(c, 0).None? then
        Rewrite.Count(lines, Rewrite.IsUvmInclude) == 0 && Rewrite.Count(lines, Rewrite.IsUvmImport) == 0
      else
        Rewrite.Count(lines, Rewrite.IsUvmInclude) == 1 && Rewrite.Count(lines, Rewrite.IsUvmImport) == 1
  {
    Rewrite.PreambleOnce(SplitLines(Sources(req)[i].code));
  }

  /** The text reported for a failed step: its error stream, or the error message when that stream is empty. */
  function ErrorText(e: ExecOutcome): (r: string)
    ensures e.stderr != [] ==> r == e.stderr
    ensures e.stderr == [] ==> r == e.message
  {
    if e.stderr != [] then e.stderr else e.message
  }

  /** What the simulation printed: its output stream followed by its error stream. */
  function RunOutput(run: ExecOutcome): string {
    run.stdout + run.stderr
  }

  /** `output.slice(0, 8000)`: the first 8000 characters, or all of them when there are fewer. */
  function Cap(s: string): (r: string)
    ensures |r| <= OutputCap
    ensures |r| <= |s| && r == s[..|r|]
    ensures |s| <= OutputCap ==> r == s
    ensures |s| > OutputCap ==> |r| == OutputCap
  {
    if |s| <= OutputCap then s else s[..OutputCap]
  }

  /** The raw trace sent back: the file's text when the file exists and is smaller than 4 MiB. */
  function RawTrace(trace: Option<TraceFile>): (r: Option<string>)
    ensures r.Some? <==> trace.Some? && trace.value.size < TraceCap
    ensures r.Some? ==> r.value == trace.value.content
  {
    match trace
    case None => None
    case Some(t) => if t.size < TraceCap then Some(t.content) else None
  }

  /** The text of the trace file, when it exists. */
  function TraceText(trace: Option<TraceFile>): (r: Option<string>)
    ensures r.Some? <==> trace.Some?
  {
    match trace
    case None => None
    case Some(t) => Some(t.content)
  }

  /**
   * The answer after the simulation ran: a run that failed still counts as a
   * success when its output mentions `$finish`, and only a run that does not
   * count reports its whole output as `errors`.
   */
  function Finish(run: ExecOutcome, trace: Option<TraceFile>): (r: Response)
    ensures r.Done?
    ensures r.success <==> !run.failed || Contains(RunOutput(run), FinishMark)
    ensures r.errors.None? <==> r.success
    ensures r.errors.Some? ==> r.errors.value == RunOutput(run)
    ensures |r.output| <= OutputCap && |r.output| <= |RunOutput(run)| && r.output == RunOutput(run)[..|r.output|]
    ensures trace.None? ==> r.signals.None? && r.vcd.None?
  {
    var output := RunOutput(run);
    var finished := Contains(output, FinishMark);
    Done(!run.failed || finished,
         if run.failed && !finished then Some(output) else None,
         Cap(output),
         Vcd.ParsedFile(TraceText(trace)),
         RawTrace(trace))
  }

  /**
   * The whole handler as a function of the request and of what the three
   * steps reported. A step that is not reached does not influence the answer
   * (see CompileFailureStops and BuildFailureStops).
   */
  function Respond(req: Request, compile: ExecOutcome, build: ExecOutcome, run: ExecOutcome, trace: Option<TraceFile>): (r: Response)
    ensures r.Rejected? <==> NoCode(req)
    ensures r.Rejected? ==> r.status == 400
    ensures r.Done? <==> !NoCode(req) && !compile.failed && !build.failed
    ensures r.Failed? ==> (r.stage == Compile <==> compile.failed)
  {
    if NoCode(req) then Rejected(400, NoCodeError)
    else if compile.failed then Failed(Compile, ErrorText(compile))
    else if build.failed then Failed(Build, ErrorText(build))
    else Finish(run, trace)
  }

  /** A failed compile is answered at once: what the build, the run and the trace would have been does not matter. */
  lemma CompileFailureStops(req: Request, compile: ExecOutcome,
                            build1: ExecOutcome, run1: ExecOutcome, trace1: Option<TraceFile>,
                            build2: ExecOutcome, run2: ExecOutcome, trace2: Option<TraceFile>)
    requires !NoCode(req) && compile.failed
    ensures Respond(req, compile, build1, run1, trace1) == Respond(req, compile, build2, run2, trace2)
    ensures Respond(req, compile, build1, run1, trace1) == Failed(Compile, ErrorText(compile))
  {
  }

  /** A failed build is answered at once: what the run and the trace would have been does not matter. */
  lemma BuildFailureStops(req: Request, compile: ExecOutcome, build: ExecOutcome,
                          run1: ExecOutcome, trace1: Option<TraceFile>,
                          run2: ExecOutcome, trace2: Option<TraceFile>)
    requires !NoCode(req) && !compile.failed && build.failed
    ensures Respond(req, compile, build, run1, trace1) == Respond(req, compile, build, run2, trace2)
    ensures Respond(req, compile, build, run1, trace1) == Failed(Build, ErrorText(build))
  {
  }

  /**
   * After a run: `success` holds exactly when the run did not fail or its
   * output mentions `$finish`, and `errors` is absent exactly then; otherwise
   * it is the whole output, not only the first 8000 characters.
   */
  lemma SuccessRule(req: Request, compile: ExecOutcome, build: ExecOutcome, run: ExecOutcome, trace: Option<TraceFile>)
    requires !NoCode(req) && !compile.failed && !build.failed
    ensures var r := Respond(req, compile, build, run, trace);
      (r.success <==> !run.failed || Contains(RunOutput(run), FinishMark)) &&
      (r.errors.None? <==> r.success) &&
      (r.errors.Some? ==> r.errors.value == RunOutput(run))
  {
  }

  /** After a run, `output` is the start of what the run printed, at most 8000 characters long. */
  lemma OutputCapped(req: Request, compile: ExecOutcome, build: ExecOutcome, run: ExecOutcome, trace: Option<TraceFile>)
    requires !NoCode(req) && !compile.failed && !build.failed
    ensures var r := Respond(req, compile, build, run, trace);
      |r.output| <= OutputCap && |r.output| <= |RunOutput(run)| && r.output == RunOutput(run)[..|r.output|] &&
      (|RunOutput(run)| <= OutputCap ==> r.output == RunOutput(run))
  {
  }

  /**
   * After a run, the raw trace is sent only for an existing file under 4 MiB,
   * while the parsed signals are read from the trace whatever its size, and
   * are absent when there is no trace.
   */
  lemma TraceRules(req: Request, compile: ExecOutcome, build: ExecOutcome, run: ExecOutcome, trace: Option<TraceFile>)
    requires !NoCode(req) && !compile.failed && !build.failed
    ensures var r := Respond(req, compile, build, run, trace);
      (r.vcd.Some? <==> trace.Some? && trace.value.size < TraceCap) &&
      (r.vcd.Some? ==> r.vcd.value == trace.value.content) &&
      (trace.None? ==> r.signals.None?) &&
      (trace.Some? ==> r.signals == Vcd.Parsed(SplitLines(trace.value.content)))
  {
  }

  /** Every signal in the answer recorded at least one change. */
  lemma SignalsNonEmpty(req: Request, compile: ExecOutcome, build: ExecOutcome, run: ExecOutcome, trace: Option<TraceFile>)
    requires !NoCode(req) && !compile.failed && !build.failed
    ensures var r := Respond(req, compile, build, run, trace);
      r.signals.Some? ==> r.signals.value != map[] && forall n :: n in r.signals.value ==> r.signals.value[n].values != []
  {
    var r := Respond(req, compile, build, run, trace);
    if r.signals.Some? {
      var signals := Vcd.Run(SplitLines(trace.value.content)).signals;
      assert r.signals == Vcd.Report(signals);
    }
  }
}
