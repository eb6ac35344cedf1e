/**
 * The command line: the first argument names the input description, the
 * second the output file. `args` is the argument vector without the
 * program name.
 */
module CommandLine {
  import opened Wrappers
  import opened Encoder

  datatype Args = Args(input: string, output: Option<string>)

  /**
   * What the argument loop leaves behind: a usage error for no argument or
   * for three and more; with a single argument the run goes on without an
   * output name.
   */
  function Arguments(args: seq<string>): Result<Args, Error>
  {
    if |args| == 0 || |args| > 2 then Err(Usage)
    else Ok(Args(args[0], if |args| == 2 then Some(args[1]) else None))
  }

  /** The argument loop: a third argument clears the input name and stops the loop. */
  method CheckArguments(args: seq<string>) returns (r: Result<Args, Error>)
    ensures r == Arguments(args)
  {
    var input: Option<string> := None;
    var output: Option<string> := None;
    var i := 0;
    while i < |args|
      invariant 0 <= i <= |args| && i <= 2
      invariant input == if i >= 1 then Some(args[0]) else None
      invariant output == if i >= 2 then Some(args[1]) else None
    {
      if input.None? {
        input := Some(args[i]);
      } else if output.None? {
        output := Some(args[i]);
      } else {
        input := None;
        break;
      }
      i := i + 1;
    }
    if input.None? {
      return Err(Usage);
    }
    r := Ok(Args(input.value, output));
  }

  lemma OneArgumentHasNoOutput(args: seq<string>)
    requires |args| == 1
    ensures Arguments(args) == Ok(Args(args[0], None))
  {
  }
}
