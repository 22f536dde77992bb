/**
 The classifier and dispatcher of the shell (`isTherePipe`,
 `isThereRedirection` and `executeCommand` in shell_api.c): it finds the
 single governing `|` or `>` of a tokenized command line, cuts the line
 around it, and decides what runs: a built-in, an external program, a
 two-stage pipeline, or a redirected program. Process creation, descriptor
 wiring and the program loader are outside the model; the decision is the
 `Action` value.
 */
module Classifier {
  import opened Options
  import opened Builtins

  const PipeToken: string := "|"
  const RedirectToken: string := ">"

  /** The verdict of one operator scan: the split index (0 for none) and whether a syntax error was reported. */
  datatype Scan = Scan(index: nat, syntaxError: bool)

  /** First position at or after `from` that holds the token `op`, or `|cmd|`. */
  function FirstFrom(cmd: seq<string>, op: string, from: nat): (i: nat)
    requires from <= |cmd|
    decreases |cmd| - from
    ensures from <= i <= |cmd|
    ensures i < |cmd| ==> cmd[i] == op
    ensures forall j :: from <= j < i ==> cmd[j] != op
  {
    if from == |cmd| then from
    else if cmd[from] == op then from
    else FirstFrom(cmd, op, from + 1)
  }

  /**
   One scan for an operator token (the common body of `isTherePipe` and
   `isThereRedirection`). The operator governs at the first place it occurs
   after the command name, provided it is not the last token; an operator
   in first place, or as the last of two tokens, or as the first operator
   but in last place, is a syntax error and gives no split.
   */
  function ScanFor(cmd: seq<string>, op: string): (r: Scan)
    requires |cmd| >= 1
    ensures r.index != 0 ==>
      && 1 <= r.index <= |cmd| - 2
      && cmd[r.index] == op
      && cmd[0] != op
      && forall j :: 1 <= j < r.index ==> cmd[j] != op
    ensures r.index == 0 <==> (cmd[0] == op || forall j :: 1 <= j < |cmd| - 1 ==> cmd[j] != op)
    ensures r.syntaxError <==>
      (|| cmd[0] == op
       || (&& |cmd| >= 2
           && cmd[|cmd| - 1] == op
           && forall j :: 1 <= j < |cmd| - 1 ==> cmd[j] != op))
  {
    if cmd[0] == op || (|cmd| == 2 && cmd[1] == op) then Scan(0, true)
    else if |cmd| > 2 then
      var i := FirstFrom(cmd, op, 1);
      if i == |cmd| then Scan(0, false)
      else if i == |cmd| - 1 then Scan(0, true)
      else Scan(i, false)
    else Scan(0, false)
  }

  /** `isTherePipe`. */
  function IsTherePipe(cmd: seq<string>): Scan
    requires |cmd| >= 1
  {
    ScanFor(cmd, PipeToken)
  }

  /** `isThereRedirection`. */
  function IsThereRedirection(cmd: seq<string>): Scan
    requires |cmd| >= 1
  {
    ScanFor(cmd, RedirectToken)
  }

  /**
   The governing split index out of the pipe index `p` and the redirection
   index `q` (0 meaning absent): the smaller of the two present ones.
   */
  function Governing(p: nat, q: nat): (r: nat)
    ensures r == 0 <==> p == 0 && q == 0
    ensures r != 0 ==> r == p || r == q
    ensures p != 0 ==> r <= p
    ensures q != 0 ==> r <= q
  {
    if p != 0 && q != 0 then (if p < q then p else q)
    else if p != 0 || q != 0 then (if p != 0 then p else q)
    else 0
  }

  /** The argument vectors on either side of the split token. */
  function SplitAround(cmd: seq<string>, index: nat): (r: (seq<string>, seq<string>))
    requires 1 <= index <= |cmd| - 2
    ensures r.0 + [cmd[index]] + r.1 == cmd
    ensures |r.0| == index && |r.1| == |cmd| - index - 1
    ensures |r.0| >= 1 && |r.1| >= 1
  {
    (cmd[..index], cmd[index + 1..])
  }

  /** What `executeCommand` makes the (child) process do. */
  datatype Action =
    | RunBuiltin(builtin: Builtin, argv: seq<string>)
    | RunProgram(argv: seq<string>)
    | Pipeline(producer: seq<string>, consumer: seq<string>)
    | RedirectOutput(argv: seq<string>, target: string)
    | Refused(reason: Refusal)

  /** Pipes and redirections are never applied to built-ins. */
  datatype Refusal = PipeOfBuiltin | RedirectOfBuiltin

  /** The diagnostics the two scans print, in the order they print them. */
  datatype Diagnostic = PipeSyntax | RedirectSyntax

  datatype Dispatch = Dispatch(diagnostics: seq<Diagnostic>, action: Action)

  /**
   `pipeCommand`'s decision: refuse when either side is a built-in, else the
   left side writes into the pipe and the right side reads from it.
   */
  function PipeCommand(cmd1: seq<string>, cmd2: seq<string>): (r: Action)
    requires |cmd1| >= 1 && |cmd2| >= 1
    ensures r.Refused? <==> cmd1[0] in BuiltinNames || cmd2[0] in BuiltinNames
    ensures r.Refused? ==> r.reason == PipeOfBuiltin
    ensures !r.Refused? ==> r == Pipeline(cmd1, cmd2)
  {
    if IsBuiltInCommand(cmd1) || IsBuiltInCommand(cmd2) then Refused(PipeOfBuiltin)
    else Pipeline(cmd1, cmd2)
  }

  /**
   `redirectOutput`'s decision: refuse for a built-in, else run `cmd` with
   its output in the file named by the first token after `>`; any further
   tokens are ignored.
   */
  function RedirectCommand(cmd: seq<string>, file: seq<string>): (r: Action)
    requires |cmd| >= 1 && |file| >= 1
    ensures r.Refused? <==> cmd[0] in BuiltinNames
    ensures r.Refused? ==> r.reason == RedirectOfBuiltin
    ensures !r.Refused? ==> r == RedirectOutput(cmd, file[0])
  {
    if IsBuiltInCommand(cmd) then Refused(RedirectOfBuiltin)
    else RedirectOutput(cmd, file[0])
  }

  /**
   The split branch of `executeCommand`: cut the line around the governing
   index and hand the halves to `pipeCommand` when that index is the pipe's,
   to `redirectOutput` otherwise. The left half never holds the governing
   operator, nor the other operator unless the line starts with it.
   */
  function SplitAction(cmd: seq<string>, p: nat, q: nat): (r: Action)
    requires |cmd| >= 1
    requires p == IsTherePipe(cmd).index && q == IsThereRedirection(cmd).index
    requires Governing(p, q) != 0
    ensures r.Pipeline? || r.RedirectOutput? || r.Refused?
    ensures r.Pipeline? ==>
      && cmd == r.producer + [PipeToken] + r.consumer
      && |r.producer| >= 1 && |r.consumer| >= 1
      && r.producer[0] !in BuiltinNames && r.consumer[0] !in BuiltinNames
      && PipeToken !in r.producer
      && (cmd[0] != RedirectToken ==> RedirectToken !in r.producer)
    ensures r.RedirectOutput? ==>
      && 1 <= |r.argv| <= |cmd| - 2
      && cmd[..|r.argv|] == r.argv
      && cmd[|r.argv|] == RedirectToken
      && r.target == cmd[|r.argv| + 1]
      && r.argv[0] !in BuiltinNames
      && RedirectToken !in r.argv
      && (cmd[0] != PipeToken ==> PipeToken !in r.argv)
    ensures Governing(p, q) == p ==>
      && (r.Refused? <==> cmd[0] in BuiltinNames || cmd[p + 1] in BuiltinNames)
      && (r.Refused? ==> r.reason == PipeOfBuiltin)
      && (!r.Refused? ==> r == Pipeline(cmd[..p], cmd[p + 1..]))
    ensures Governing(p, q) != p ==>
      && (r.Refused? <==> cmd[0] in BuiltinNames)
      && (r.Refused? ==> r.reason == RedirectOfBuiltin)
      && (!r.Refused? ==> r == RedirectOutput(cmd[..q], cmd[q + 1]))
  {
    var index := Governing(p, q);
    var (cmd1, cmd2) := SplitAround(cmd, index);
    assert cmd1 == cmd[..index];
    OperatorFreePrefix(cmd, PipeToken, index);
    OperatorFreePrefix(cmd, RedirectToken, index);
    if index == p then PipeCommand(cmd1, cmd2)
    else RedirectCommand(cmd1, cmd2)
  }

  /**
   Before the governing index `g` neither operator occurs, except in first
   place: the governing one is first found at `g`, the other one later or
   not at all.
   */
  lemma OperatorFreePrefix(cmd: seq<string>, op: string, g: nat)
    requires 1 <= g <= |cmd| - 2
    requires ScanFor(cmd, op).index == 0 || ScanFor(cmd, op).index >= g
    ensures cmd[0] != op ==> op !in cmd[..g]
  {
    if cmd[0] != op {
      forall j | 0 <= j < g ensures cmd[j] != op {
      }
    }
  }

  /**
   `executeCommand` for a non-empty token list: both scans run (and report),
   the smaller valid index governs, and a line without a split runs as a
   built-in when its first token names one and as a program otherwise.
   */
  function ExecuteCommand(cmd: seq<string>): (r: Dispatch)
    requires |cmd| >= 1
    ensures PipeSyntax in r.diagnostics <==> IsTherePipe(cmd).syntaxError
    ensures RedirectSyntax in r.diagnostics <==> IsThereRedirection(cmd).syntaxError
    ensures |r.diagnostics| <= 2
    ensures |r.diagnostics| == 2 ==> r.diagnostics == [PipeSyntax, RedirectSyntax]
    ensures (r.action.RunProgram? || r.action.RunBuiltin?) <==>
      IsTherePipe(cmd).index == 0 && IsThereRedirection(cmd).index == 0
    ensures r.action.RunProgram? ==> r.action.argv == cmd && cmd[0] !in BuiltinNames
    ensures r.action.RunBuiltin? ==> r.action.argv == cmd && Name(r.action.builtin) == cmd[0]
    ensures !(r.action.RunProgram? || r.action.RunBuiltin?) ==>
      r.action == SplitAction(cmd, IsTherePipe(cmd).index, IsThereRedirection(cmd).index)
  {
    var pipe := IsTherePipe(cmd);
    var redirect := IsThereRedirection(cmd);
    var diagnostics := (if pipe.syntaxError then [PipeSyntax] else []) +
                       (if redirect.syntaxError then [RedirectSyntax] else []);
    var action :=
      if Governing(pipe.index, redirect.index) != 0 then SplitAction(cmd, pipe.index, redirect.index)
      else
        match Recognize(cmd[0])
        case Some(b) => RunBuiltin(b, cmd)
        case None => RunProgram(cmd);
    Dispatch(diagnostics, action)
  }

  // ---------------------------------------------------------------------
  // Properties of the split choice.

  /** A token is never both operators, so two present indices always differ. */
  lemma PresentIndicesDiffer(cmd: seq<string>)
    requires |cmd| >= 1
    ensures IsTherePipe(cmd).index != 0 && IsThereRedirection(cmd).index != 0 ==>
      IsTherePipe(cmd).index != IsThereRedirection(cmd).index
  {
  }

  /**
   The governing operator decides the shape: a pipeline (or its refusal)
   exactly when a valid `|` comes before any valid `>`, a redirection (or
   its refusal) exactly when a valid `>` comes first.
   */
  lemma PipeWinsIffFirst(cmd: seq<string>)
    requires |cmd| >= 1
    ensures var p := IsTherePipe(cmd).index;
            var q := IsThereRedirection(cmd).index;
            var a := ExecuteCommand(cmd).action;
            && ((a.Pipeline? || a == Refused(PipeOfBuiltin)) <==> p != 0 && (q == 0 || p < q))
            && ((a.RedirectOutput? || a == Refused(RedirectOfBuiltin)) <==> q != 0 && (p == 0 || q < p))
  {
    PresentIndicesDiffer(cmd);
  }

  /** `ls -l | wc` splits at index 2 into a pipeline. */
  lemma ListIntoWordCount()
    ensures IsTherePipe(["ls", "-l", "|", "wc"]) == Scan(2, false)
    ensures ExecuteCommand(["ls", "-l", "|", "wc"]) == Dispatch([], Pipeline(["ls", "-l"], ["wc"]))
  {
    var cmd := ["ls", "-l", "|", "wc"];
    assert FirstFrom(cmd, PipeToken, 1) == 2 by {
      assert FirstFrom(cmd, PipeToken, 2) == 2;
    }
    assert FirstFrom(cmd, RedirectToken, 1) == 4 by {
      assert FirstFrom(cmd, RedirectToken, 4) == 4;
    }
    assert cmd[..2] == ["ls", "-l"];
    assert cmd[3..] == ["wc"];
  }

  /** `cmd > out.txt` splits at index 1 into a redirection. */
  lemma RedirectIntoFile()
    ensures IsThereRedirection(["cmd", ">", "out.txt"]) == Scan(1, false)
    ensures ExecuteCommand(["cmd", ">", "out.txt"]) == Dispatch([], RedirectOutput(["cmd"], "out.txt"))
  {
    var cmd := ["cmd", ">", "out.txt"];
    assert FirstFrom(cmd, PipeToken, 1) == 3 by {
      assert FirstFrom(cmd, PipeToken, 3) == 3;
    }
    assert cmd[..1] == ["cmd"];
    assert cmd[2..] == ["out.txt"];
  }

  /** A leading `|` is a syntax error; the line then runs as a program named `|`. */
  lemma LeadingPipe()
    ensures ExecuteCommand(["|", "x"]) == Dispatch([PipeSyntax], RunProgram(["|", "x"]))
  {
  }

  /** A trailing `|` is a syntax error; the line then runs as the plain command before it. */
  lemma TrailingPipe()
    ensures ExecuteCommand(["cmd", "|"]) == Dispatch([PipeSyntax], RunProgram(["cmd", "|"]))
  {
  }

  /** `pwd > out.txt` is refused before any file is opened. */
  lemma RedirectedBuiltinRefused()
    ensures ExecuteCommand(["pwd", ">", "out.txt"]).action == Refused(RedirectOfBuiltin)
  {
    var cmd := ["pwd", ">", "out.txt"];
    assert FirstFrom(cmd, PipeToken, 1) == 3 by {
      assert FirstFrom(cmd, PipeToken, 3) == 3;
    }
  }

  /** A pipeline with a built-in on either side is refused, so neither side runs. */
  lemma PipedBuiltinRefused(left: seq<string>, right: seq<string>)
    requires |left| >= 1 && |right| >= 1
    requires left[0] in BuiltinNames || right[0] in BuiltinNames
    requires PipeToken !in left && RedirectToken !in left
    ensures ExecuteCommand(left + [PipeToken] + right).action == Refused(PipeOfBuiltin)
  {
    var cmd := left + [PipeToken] + right;
    var p := IsTherePipe(cmd);
    var q := IsThereRedirection(cmd);
    assert cmd[|left|] == PipeToken;
    assert forall j :: 0 <= j < |left| ==> cmd[j] == left[j];
    assert p.index == |left|;
    assert q.index == 0 || q.index > |left|;
    assert cmd[..|left|] == left;
    assert cmd[|left| + 1..] == right;
  }

  /**
   The converse: a pipeline whose two sides start with programs, and whose
   left side holds no operator, runs as that pipeline.
   */
  lemma PipeOfProgramsRuns(left: seq<string>, right: seq<string>)
    requires |left| >= 1 && |right| >= 1
    requires left[0] !in BuiltinNames && right[0] !in BuiltinNames
    requires PipeToken !in left && RedirectToken !in left
    ensures ExecuteCommand(left + [PipeToken] + right).action == Pipeline(left, right)
  {
    var cmd := left + [PipeToken] + right;
    var p := IsTherePipe(cmd);
    var q := IsThereRedirection(cmd);
    assert cmd[|left|] == PipeToken;
    assert forall j :: 0 <= j < |left| ==> cmd[j] == left[j];
    assert p.index == |left|;
    assert q.index == 0 || q.index > |left|;
    assert cmd[..|left|] == left;
    assert cmd[|left| + 1..] == right;
  }
}
