/**
 The fixed, closed set of built-in commands of the shell (`cd`, `pwd`,
 `exit`, `fg`, `jobs`) and their recognition from the first token of a
 command line (`isBuiltInCommand` in shell_api.c).
 */
module Builtins {
  import opened Options

  datatype Builtin = Cd | Pwd | Exit | Fg | Jobs

  /** The word that names each built-in on the command line. */
  function Name(b: Builtin): string
  {
    match b
    case Cd => "cd"
    case Pwd => "pwd"
    case Exit => "exit"
    case Fg => "fg"
    case Jobs => "jobs"
  }

  /** The five words that are built-ins, and nothing else. */
  const BuiltinNames: set<string> := {"cd", "pwd", "exit", "fg", "jobs"}

  /** Recognition of a word by the chain of string comparisons of the source. */
  function Recognize(word: string): (r: Option<Builtin>)
    ensures r.Some? <==> word in BuiltinNames
    ensures r.Some? ==> Name(r.value) == word
  {
    if word == "cd" then Some(Cd)
    else if word == "pwd" then Some(Pwd)
    else if word == "exit" then Some(Exit)
    else if word == "fg" then Some(Fg)
    else if word == "jobs" then Some(Jobs)
    else None
  }

  /** A command is a built-in exactly when its first token names one. */
  predicate IsBuiltInCommand(cmd: seq<string>)
    requires |cmd| >= 1
  {
    Recognize(cmd[0]).Some?
  }

  /** Naming a built-in and recognising the name are inverse to each other. */
  lemma RecognizeName(b: Builtin)
    ensures Recognize(Name(b)) == Some(b)
    ensures Name(b) in BuiltinNames
  {
  }

  /** Only the first token decides: arguments never make a command built-in. */
  lemma BuiltInIgnoresArguments(cmd: seq<string>, more: seq<string>)
    requires |cmd| >= 1
    ensures IsBuiltInCommand(cmd + more) <==> cmd[0] in BuiltinNames
  {
    assert (cmd + more)[0] == cmd[0];
  }
}
