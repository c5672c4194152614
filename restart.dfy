/**
 * The parts of GaussianBaseRestartWorkChain that minimal_workchains.py shows:
 * the recovery handler registered for three failure codes, which gives the next
 * attempt the last geometry of the failed one as its structure, and the final
 * decision of `results()`. The loop that submits and inspects the attempts is
 * AiiDA's BaseRestartWorkChain, which is not part of this model; `Run` is an
 * abstract stand-in for it that calls the two shown pieces.
 */
module RestartEngine {
  import opened Values
  import opened Geometry

  const StructureStr := "structure_str"
  const OutputParameters := "output_parameters"

  /** How an attempt of the Gaussian calculation ended. */
  datatype ExitStatus =
    | FinishedOk
    | NoNormalTermination      // ERROR_NO_NORMAL_TERMINATION
    | Termination              // ERROR_TERMINATION
    | OutputParsing            // ERROR_OUTPUT_PARSING
    | OtherFailure(status: int)

  /** The exit codes `handle_misc_failure` is registered for. */
  predicate HandledByMiscFailure(e: ExitStatus) {
    e.NoNormalTermination? || e.Termination? || e.OutputParsing?
  }

  /** `ctx.inputs`: the inputs of the next attempt, node wrappers as the values they hold. */
  type Inputs = map<string, Value>

  /** A finished attempt: what was submitted, how it ended, and its output nodes by link label. */
  datatype Child = Child(submitted: Inputs, exit: ExitStatus, outputs: map<string, Value>)

  /** `ProcessHandlerReport(do_break, exit_code)` */
  datatype HandlerReport = HandlerReport(doBreak: bool, exitStatus: int)

  /** `ProcessHandlerReport()`: carry on, no exit code. */
  const DefaultReport := HandlerReport(false, 0)

  /**
   * The structure a failed attempt hands on: the rendered last geometry of its
   * `output_parameters` (`node.outputs.output_parameters.get_dict()`).
   */
  function RecoveredStructure(node: Child, show: Value -> string, fmt: real -> string): (r: Result<string>)
    ensures OutputParameters !in node.outputs ==> r == Err(NotExistent(OutputParameters))
    ensures OutputParameters in node.outputs && node.outputs[OutputParameters].Dict? ==>
              r == GeomFromDict(node.outputs[OutputParameters].entries, show, fmt)
  {
    if OutputParameters !in node.outputs then Err(NotExistent(OutputParameters))
    else
      match node.outputs[OutputParameters]
      case Dict(params) => GeomFromDict(params, show, fmt)
      case _ => Err(TypeError)
  }

  /** The inputs of the attempt after `c`, when the loop goes on after it. */
  ghost function NextInputs(c: Child, show: Value -> string, fmt: real -> string): Inputs {
    if HandledByMiscFailure(c.exit) && RecoveredStructure(c, show, fmt).Ok? then
      c.submitted[StructureStr := Text(RecoveredStructure(c, show, fmt).value)]
    else c.submitted
  }

  /**
   * The attempts so far: attempt i (numbered from 1) ran the calculation on its
   * inputs, the first on the exposed inputs and each later one on what its
   * predecessor handed on.
   */
  ghost predicate Chained(
    exposed: Inputs, children: seq<Child>, gaussian: (Inputs, int) -> (ExitStatus, map<string, Value>),
    show: Value -> string, fmt: real -> string)
  {
    && (forall i :: 0 <= i < |children| ==> (children[i].exit, children[i].outputs) == gaussian(children[i].submitted, i + 1))
    && (|children| > 0 ==> children[0].submitted == exposed)
    && (forall i :: 0 < i < |children| ==> children[i].submitted == NextInputs(children[i - 1], show, fmt))
  }

  /** An attempt run on what the last one handed on extends the chain. */
  lemma ChainedSnoc(
    exposed: Inputs, children: seq<Child>, node: Child, gaussian: (Inputs, int) -> (ExitStatus, map<string, Value>),
    show: Value -> string, fmt: real -> string)
    requires Chained(exposed, children, gaussian, show, fmt)
    requires node.submitted == if children == [] then exposed else NextInputs(children[|children| - 1], show, fmt)
    requires (node.exit, node.outputs) == gaussian(node.submitted, |children| + 1)
    ensures Chained(exposed, children + [node], gaussian, show, fmt)
  {
    var cs := children + [node];
    assert forall i :: 0 <= i < |children| ==> cs[i] == children[i];
  }

  /** Attempts are only run while none has succeeded. */
  lemma NoSuccessBeforeLast(children: seq<Child>, node: Child)
    requires forall i :: 0 <= i < |children| - 1 ==> !children[i].exit.FinishedOk?
    requires children != [] ==> !children[|children| - 1].exit.FinishedOk?
    ensures forall i :: 0 <= i < |children + [node]| - 1 ==> !(children + [node])[i].exit.FinishedOk?
  {
    assert forall i :: 0 <= i < |children| ==> (children + [node])[i] == children[i];
  }

  /** The context `results()` reads. */
  datatype LoopState = LoopState(isFinished: bool, iteration: int, children: seq<Child>, maxIterations: int)

  /** How the work chain ends: exit code ERROR_MAXIMUM_ITERATIONS_EXCEEDED, or the last attempt's outputs. */
  datatype Outcome = MaximumIterationsExceeded | Completed(outputs: map<string, Value>)

  /** The outputs a chain leaves behind: none when it ends with the maximum-iterations code. */
  function Published(t: Outcome): (outputs: map<string, Value>)
    ensures t.MaximumIterationsExceeded? ==> outputs == map[]
  {
    match t
    case MaximumIterationsExceeded => map[]
    case Completed(o) => o
  }

  /**
   * results(): fetches `children[iteration - 1]` (a Python index, so it may be
   * negative), then fails with the maximum-iterations code when the chain is
   * not finished and the budget is spent, and otherwise publishes every output
   * of that node.
   */
  function Results(s: LoopState): (r: Result<Outcome>)
    ensures r.Err? <==> !(-|s.children| <= s.iteration - 1 < |s.children|)
    ensures r.Err? ==> r.error == IndexError
    ensures r.Ok? ==> (r.value == MaximumIterationsExceeded <==> !s.isFinished && s.iteration >= s.maxIterations)
    ensures r.Ok? && r.value.Completed? ==>
              var node := s.children[if s.iteration >= 1 then s.iteration - 1 else |s.children| + s.iteration - 1];
              && r.value.outputs.Keys == node.outputs.Keys
              && forall key :: key in node.outputs ==> r.value.outputs[key] == node.outputs[key]
  {
    var node :- PyIndex(s.children, s.iteration - 1);
    if !s.isFinished && s.iteration >= s.maxIterations then Ok(MaximumIterationsExceeded)
    else Ok(Completed(map key | key in node.outputs :: node.outputs[key]))
  }

  class RestartWorkChain {
    /** The inputs exposed from the Gaussian calculation, and `max_iterations`. */
    const exposedInputs: Inputs
    const maxIterations: int

    var inputs: Inputs
    var isFinished: bool
    var iteration: int
    var children: seq<Child>

    /** setup(): the first attempt gets the exposed inputs. */
    constructor (exposedInputs: Inputs, maxIterations: int)
      ensures this.exposedInputs == exposedInputs && this.maxIterations == maxIterations
      ensures inputs == exposedInputs && !isFinished && iteration == 0 && children == []
    {
      this.exposedInputs := exposedInputs;
      this.maxIterations := maxIterations;
      inputs := exposedInputs;
      isFinished := false;
      iteration := 0;
      children := [];
    }

    function State(): LoopState
      reads this
    {
      LoopState(isFinished, iteration, children, maxIterations)
    }

    /**
     * handle_misc_failure: replaces only the structure of the next attempt by
     * the failed node's last geometry and returns the default report. When the
     * handler raises, the inputs are left as they were.
     */
    method HandleMiscFailure(node: Child, show: Value -> string, fmt: real -> string) returns (r: Result<HandlerReport>)
      modifies this`inputs
      ensures r.Ok? <==> RecoveredStructure(node, show, fmt).Ok?
      ensures r.Ok? ==>
                && r.value == DefaultReport
                && inputs == old(inputs)[StructureStr := Text(RecoveredStructure(node, show, fmt).value)]
      ensures r.Err? ==> inputs == old(inputs) && r.error == RecoveredStructure(node, show, fmt).error
    {
      if OutputParameters !in node.outputs {
        return Err(NotExistent(OutputParameters));
      }
      var params := node.outputs[OutputParameters];
      if !params.Dict? {
        return Err(TypeError);
      }
      var structure := RenderGeometry(params.entries, show, fmt);
      if structure.Err? {
        return Err(structure.error);
      }
      inputs := inputs[StructureStr := Text(structure.value)];
      return Ok(DefaultReport);
    }

    /**
     * The outline `setup; while should_run_process: run_process; inspect_process;
     * results`, abstracted: `gaussian` is the Gaussian calculation, run on the
     * current inputs as attempt `iteration`; inspection marks a successful
     * attempt finished, calls handle_misc_failure on the three codes it is
     * registered for, and otherwise submits the same inputs again.
     */
    method Run(gaussian: (Inputs, int) -> (ExitStatus, map<string, Value>), show: Value -> string, fmt: real -> string)
      returns (r: Result<Outcome>)
      requires inputs == exposedInputs && !isFinished && iteration == 0 && children == []
      modifies this
      ensures |children| == iteration
      ensures maxIterations <= 0 ==> children == [] && r == Err(IndexError)
      ensures maxIterations > 0 ==> 1 <= iteration <= maxIterations
      ensures Chained(exposedInputs, children, gaussian, show, fmt)
      ensures forall i :: 0 <= i < |children| - 1 ==> !children[i].exit.FinishedOk?
      ensures r.Ok? ==> r == Results(State())
      ensures r.Ok? && r.value.Completed? ==>
                && isFinished && children[|children| - 1].exit.FinishedOk?
                && r.value.outputs == children[|children| - 1].outputs
      ensures r == Ok(MaximumIterationsExceeded) ==>
                && !isFinished && iteration == maxIterations
                && forall i :: 0 <= i < |children| ==> !children[i].exit.FinishedOk?
      ensures maxIterations > 0 && r.Err? ==>
                && HandledByMiscFailure(children[|children| - 1].exit)
                && RecoveredStructure(children[|children| - 1], show, fmt).Err?
                && r.error == RecoveredStructure(children[|children| - 1], show, fmt).error
    {
      while !isFinished && iteration < maxIterations
        invariant 0 <= iteration == |children|
        invariant maxIterations > 0 ==> iteration <= maxIterations
        invariant maxIterations <= 0 ==> iteration == 0
        invariant Chained(exposedInputs, children, gaussian, show, fmt)
        invariant inputs == if children == [] then exposedInputs else NextInputs(children[|children| - 1], show, fmt)
        invariant isFinished <==> children != [] && children[|children| - 1].exit.FinishedOk?
        invariant forall i :: 0 <= i < |children| - 1 ==> !children[i].exit.FinishedOk?
        decreases maxIterations - iteration
      {
        iteration := iteration + 1;
        var (exit, outputs) := gaussian(inputs, iteration);
        var node := Child(inputs, exit, outputs);
        ChainedSnoc(exposedInputs, children, node, gaussian, show, fmt);
        NoSuccessBeforeLast(children, node);
        children := children + [node];
        if exit.FinishedOk? {
          isFinished := true;
        } else if HandledByMiscFailure(exit) {
          var report := HandleMiscFailure(node, show, fmt);
          if report.Err? {
            return Err(report.error);
          }
          assert inputs == NextInputs(node, show, fmt);
        }
      }
      r := Results(State());
      ResultsOnExit(State());
    }
  }

  /**
   * What results() decides once the loop has stopped: the last attempt
   * succeeded, or the budget is spent (and then no attempt succeeded), or the
   * budget was never positive and there is no attempt to fetch.
   */
  lemma ResultsOnExit(s: LoopState)
    requires 0 <= s.iteration == |s.children|
    requires s.maxIterations > 0 ==> s.iteration <= s.maxIterations
    requires s.maxIterations <= 0 ==> s.iteration == 0
    requires s.isFinished || s.iteration >= s.maxIterations
    requires s.isFinished <==> s.children != [] && s.children[|s.children| - 1].exit.FinishedOk?
    requires forall i :: 0 <= i < |s.children| - 1 ==> !s.children[i].exit.FinishedOk?
    ensures s.maxIterations <= 0 ==> Results(s) == Err(IndexError)
    ensures s.maxIterations > 0 ==> Results(s).Ok?
    ensures Results(s).Ok? && Results(s).value.Completed? ==>
              && s.isFinished && s.children[|s.children| - 1].exit.FinishedOk?
              && Results(s).value.outputs == s.children[|s.children| - 1].outputs
    ensures Results(s) == Ok(MaximumIterationsExceeded) ==>
              && !s.isFinished && s.iteration == s.maxIterations
              && forall i :: 0 <= i < |s.children| ==> !s.children[i].exit.FinishedOk?
  {
    if s.maxIterations > 0 && Results(s).value.Completed? {
      var node := s.children[s.iteration - 1];
      assert Results(s).value.outputs == node.outputs;
    }
  }
}
