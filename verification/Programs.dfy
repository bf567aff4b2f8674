/** From source tokens to the end of the run. */
module Programs {
  import opened Options
  import opened Values
  import opened Syntax
  import opened Bytecode
  import opened Codegen
  import opened Grammar
  import opened Semantics
  import Machine
  import Astray
  import Emit
  import Patching
  import Compiler
  import Simulation

  /** The script the tokens spell, if they spell one. */
  function Script(source: Tokens): Option<Decls> {
    match ParseProgram(source)
    case Failed => None
    case Parsed(ds, _) => Some(ds)
  }

  /** When every loop body is a block, or breaks are kept apart in some other way, compiling comes to the structured
      code. */
  lemma CompilesToStructuredCode(source: Tokens)
    ensures
      match Script(source)
      case None => Compiler.CompileScript(source) == None
      case Some(ds) =>
        Patching.ScriptSafe(ds) ==>
          Compiler.CompileScript(source) == if ScriptOk(ds) then Some(ScriptCode(ds)) else None
  {
    hide ParseProgram, Patching.ScriptSafe, ScriptOk, ScriptCode;
    var s := Script(source);
    if s.Some? && Patching.ScriptSafe(s.value) {
      Patching.ScriptEmits(s.value);
    }
  }

  /** Source that compiles without an error gets the structured code exactly when its breaks are told apart by their
      depth. */
  lemma CompilesToStructuredCodeIff(source: Tokens)
    requires Compiler.CompileScript(source).Some?
    ensures Script(source).Some?
    ensures
      var ds := Script(source).value;
      Patching.ScriptSafe(ds) <==> ScriptOk(ds) && Compiler.CompileScript(source).value == ScriptCode(ds)
  {
    hide ParseProgram, Patching.ScriptSafe, ScriptOk, ScriptCode, Emit.EmitScript;
    Astray.ScriptEmitsIff(Script(source).value);
  }

  /** What came of running a script for a limited number of instructions. */
  datatype Interpreted = NotCompiled | StillRunning | Finished(outcome: Machine.State)

  /** The result agrees with executing the script. */
  ghost predicate Agrees(ds: Decls, receiver: Values.Value, limit: nat, r: Interpreted) {
    && (r.NotCompiled? <==> !ScriptOk(ds))
    && (r.Finished? ==> Simulation.Finishes(r.outcome, Simulation.ExecuteScript(ds, receiver, limit + 1)))
    && (r.StillRunning? ==> Machine.Steps(ScriptCode(ds), Simulation.Started(receiver), limit).Running?)
  }

  /** Compiles the tokens and runs the code for at most `limit` instructions. */
  method Interpret(source: Tokens, receiver: Values.Value, limit: nat) returns (r: Interpreted)
    ensures Script(source).None? ==> r == NotCompiled
    ensures Script(source).Some? && Patching.ScriptSafe(Script(source).value) ==>
      Agrees(Script(source).value, receiver, limit, r)
  {
    hide ParseProgram, Patching.ScriptSafe, ScriptOk, ScriptCode, Simulation.ExecuteScript, Machine.Steps;
    hide Compiler.CompileScript;
    var compiler := new Compiler.Compiler(source);
    var chunk := compiler.Compile();
    CompilesToStructuredCode(source);
    if chunk.None? {
      return NotCompiled;
    }
    var fiber := new Machine.Fiber(limit + 1, receiver);
    var s := fiber.Run(chunk.value, limit);
    if s.Running? {
      return StillRunning;
    }
    if Script(source).Some? && Patching.ScriptSafe(Script(source).value) {
      Simulation.MachineDecides(Script(source).value, receiver, limit);
    }
    return Finished(s);
  }
}
