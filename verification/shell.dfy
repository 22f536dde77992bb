/**
 One turn of the shell's main loop (`main` in shell_api.c), with the
 process boundary made explicit: read a line, fork, and then the child runs
 `executeCommand` on the tokens while the parent either records the child
 as a background job or waits for it. The outcome of `fork` and the value
 left in the foreground slot (the global `process`) are inputs.
 */
module Shell {
  import opened Options
  import opened Tokenizer
  import opened Classifier
  import opened Jobs

  /** What `fork` returned to the parent. */
  datatype ForkResult = ForkFailed | Forked(child: int)

  /** What the child process does with the tokens. */
  datatype ChildRun =
    | EmptyCommandFault  // no token: `executeCommand` compares `args[0] == NULL` with `strcmp`
    | Executes(dispatch: Dispatch)

  datatype Turn =
    | Exited(shutdown: Shutdown)
    | Continued(jobs: seq<Job>, foreground: int, waits: bool, child: ChildRun)

  /** The name recorded for a background job: the pointer `args[0]`. */
  function JobName(args: seq<string>): (r: Option<string>)
    ensures r.Some? <==> |args| > 0
    ensures r.Some? ==> r.value == args[0]
  {
    if |args| == 0 then None else Some(args[0])
  }

  /** The child side of a successful fork. */
  function Child(args: seq<string>): (r: ChildRun)
    ensures r.EmptyCommandFault? <==> |args| == 0
    ensures r.Executes? ==> r.dispatch == ExecuteCommand(args)
  {
    if |args| == 0 then EmptyCommandFault else Executes(ExecuteCommand(args))
  }

  /**
   One iteration of `main`. No data from the line source, or a failed fork,
   runs the exit sequence; a failed fork first stores -1 in the foreground
   slot, and that is the process the exit sequence then kills. Otherwise the
   new child becomes the foreground slot; a background line adds it to the
   job table and the loop moves on, a foreground line waits for it.
   */
  function MainTurn(jobs: seq<Job>, foreground: int, input: LineInput, fork: ForkResult): (r: Turn)
    requires !NoData(input) ==> |Tokens(input.bytes)| <= MaxTokens
    ensures NoData(input) ==> r == Exited(MyExit(jobs, foreground))
    ensures !NoData(input) && fork.ForkFailed? ==> r == Exited(MyExit(jobs, -1))
    ensures r.Continued? ==> !NoData(input) && fork.Forked? && r.foreground == fork.child
    ensures r.Continued? ==> (r.waits <==> !Background(input.bytes))
    ensures r.Continued? && r.waits ==> r.jobs == jobs
    ensures r.Continued? && !r.waits ==> r.jobs == Append(jobs, fork.child, JobName(Tokens(input.bytes)))
    ensures r.Continued? ==> r.child == Child(Tokens(input.bytes))
  {
    match GetCommand(input)
    case EndSession => Exited(MyExit(jobs, foreground))
    case Parsed(cmd) =>
      match fork
      case ForkFailed => Exited(MyExit(jobs, -1))
      case Forked(child) =>
        if cmd.background then Continued(Append(jobs, child, JobName(cmd.args)), child, false, Child(cmd.args))
        else Continued(jobs, child, true, Child(cmd.args))
  }

  /**
   A line with an `&` that forks successfully adds exactly one job, the new
   child under the line's first token, and the shell does not wait for it.
   */
  lemma BackgroundLineAddsOneJob(jobs: seq<Job>, foreground: int, line: string, child: int)
    requires |line| > 0 && |Tokens(line)| <= MaxTokens
    requires '&' in CString(line)
    ensures var r := MainTurn(jobs, foreground, Line(line), Forked(child));
      && r.Continued? && !r.waits
      && |r.jobs| == |jobs| + 1
      && r.jobs[|jobs|] == Job(child, JobName(Tokens(line)))
      && r.jobs[..|jobs|] == jobs
  {
    var r := MainTurn(jobs, foreground, Line(line), Forked(child));
    assert r.jobs == Append(jobs, child, JobName(Tokens(line)));
  }

  /** A line without an `&` leaves the job table as it was, and the shell waits. */
  lemma ForegroundLineKeepsJobs(jobs: seq<Job>, foreground: int, line: string, child: int)
    requires |line| > 0 && |Tokens(line)| <= MaxTokens
    requires '&' !in CString(line)
    ensures var r := MainTurn(jobs, foreground, Line(line), Forked(child));
      r.Continued? && r.waits && r.jobs == jobs && r.foreground == child
  {
  }

  /** `ls -l &` records the child as job `ls` at the end of the table. */
  lemma ListRecordedAsJob(jobs: seq<Job>, foreground: int, child: int)
    ensures Tokens("ls -l &\n") == ["ls", "-l"] && Background("ls -l &\n")
    ensures MainTurn(jobs, foreground, Line("ls -l &\n"), Forked(child)) ==
      Continued(Append(jobs, child, Some("ls")), child, false, Executes(ExecuteCommand(["ls", "-l"])))
  {
    ListInBackground();
  }
}
