# Command-dispatch core of a small Unix shell, in Dafny

This project models the decision logic of a small line-oriented shell
(`shell_api.c`). The shell reads one command per prompt. It tokenizes the line
and finds a background marker. It then picks at most one `|` or `>` split
point, refuses pipes and redirections of built-ins, and keeps a table of
background jobs. Built-ins edit that table (`fg`), list it (`jobs`) and drain
it (`exit`). All process, descriptor and signal effects are removed. What is
left is pure functions over sequences, plus two methods, `MyFg` and
`MyJobs`, that mirror the source's loops.

Modules, one per component:

- `Options` (`options.dfy`): `Option<T>`, the stand-in for a pointer that may be NULL.
- `Tokenizer` (`tokenizer.dfy`): `getcmd`. A line is a `string` with one `char` per byte read, so only the values 0 to 255 occur.
- `Builtins` (`builtins.dfy`): the closed set `cd`, `pwd`, `exit`, `fg`, `jobs`, and `isBuiltInCommand`.
- `Classifier` (`classifier.dfy`): `isTherePipe`, `isThereRedirection`, `executeCommand`, and the accept/refuse decisions of `pipeCommand` and `redirectOutput`.
- `Jobs` (`jobs.dfy`): the job table. It covers the append from `main`, `my_fg` on the two parallel arrays, `my_jobs`, and `my_exit`.
- `Shell` (`shell.dfy`): one turn of `main`'s loop. The result of `fork` and the foreground slot are inputs.

Behaviour the model keeps from the code:

- Plain `char` is taken to be signed, as on x86-64, so the test `token[j] <= 32` also cuts at every byte of 0x80 or above.
- `index` and `strsep` see the line only up to its first NUL.
- Only the first `&` becomes a separator. Later `&`s stay inside tokens.
- A field is cut at its first byte of value 32 or below (or 0x80 and above, see the first bullet), and the rest of that field is lost. DEL (0x7F) does not cut.
- A scan that reports a syntax error gives no split at its operator. The line still runs: split at the other operator when that one is valid, otherwise unsplit.
- A redirection uses only the first token after `>` as the file name.
- A job's name is `args[0]`, which is NULL for a line with no token.
- Any `&` on the line, not only a trailing one, sets the background flag.
- Built-ins run in the forked child, not in the shell's own process.

## Model

| member | source | states |
|---|---|---|
| Tokenizer.CString | shell_api.c:84-89 | The part of the line the string functions see is the longest NUL-free prefix: it is a prefix, holds no NUL, and is followed by a NUL when shorter than the line |
| Tokenizer.MarkBackground | shell_api.c:84-88 | The flag is set iff the line holds an `&`; the line keeps its length; exactly the first `&` changes, into a space, and every other byte (later `&`s included) is unchanged |
| Tokenizer.Fields | shell_api.c:89 | `strsep` on space, tab and newline yields one field more than the line has separators, no field contains a separator, and the fields joined with the line's separators, in order, give the line back; empty fields between adjacent separators are kept |
| Tokenizer.Truncate | shell_api.c:90-92 | A field is kept up to its first byte that is `<= 32` as a signed char: the result is a prefix free of such bytes, followed by one when shorter |
| Tokenizer.Collect | shell_api.c:89-95 | Keeping the non-empty truncated fields yields no more tokens than fields, each non-empty and free of cutting bytes |
| Tokenizer.CollectAppend | shell_api.c:89-95 | Fields are collected one at a time and in order: collecting a concatenation of field lists is the concatenation of the collected lists |
| Tokenizer.FieldsOfRun | shell_api.c:89 | A run of `n` separators in front of the rest of a line yields `n` empty fields before the fields of the rest |
| Tokenizer.CollectEmptyFields | shell_api.c:93-94 | Empty fields yield no token |
| Tokenizer.SeparatorRunVanishes | shell_api.c:89-95 | Any run of spaces, tabs and newlines before the first word adds no token |
| Tokenizer.GapsCollapse | shell_api.c:89-95 | A word followed by any non-empty run of spaces, tabs and newlines is one token, and the tokens after the run are those of the rest of the line |
| Tokenizer.GetCommand | shell_api.c:73-98 | No data ends the session; otherwise the arguments are the collected tokens of the `strsep` fields of the visible line with its first `&` blanked, at most 19, each non-empty with no byte `<= 32`, and background is set iff the visible line has an `&` |
| Tokenizer.RenderRoundTrip | shell_api.c:84-97 | Words separated by spaces, optionally followed by `&`, then a newline, tokenize back to exactly those words with exactly that flag |
| Tokenizer.ListInBackground | shell_api.c:84-97 | `ls -l &` followed by a newline gives `["ls", "-l"]` with background set |
| Tokenizer.EchoInForeground | shell_api.c:89-97 | `echo hi` followed by a newline gives `["echo", "hi"]` with background clear |
| Tokenizer.TwoWordsInForeground | shell_api.c:89-97 | Two plain words separated by a space and ended by a newline give exactly those two tokens and no background flag |
| Tokenizer.SecondAmpersandSurvives | shell_api.c:84-95 | In `a&&b` only the first `&` separates; the tokens are `a` and `&b` and the flag is set |
| Tokenizer.CutByteEndsToken | shell_api.c:89-95 | A cutting byte that is not a separator ends its token and the rest of that field is discarded, not split into a further token |
| Tokenizer.NulHidesRest | shell_api.c:84-89 | Bytes after a NUL change neither the tokens nor the flag |
| Builtins.Recognize | shell_api.c:189-194 | A word is recognised iff it is one of `cd`, `pwd`, `exit`, `fg`, `jobs`, and the recognised built-in carries that word as its name |
| Builtins.RecognizeName | shell_api.c:197-203 | Every built-in is recognised from its own name, which is in the built-in set |
| Builtins.BuiltInIgnoresArguments | shell_api.c:189-190 | Whether a command is built-in depends on its first token only |
| Classifier.FirstFrom | shell_api.c:152-154 | The index returned is the first position at or after the start that holds the operator, or the length when there is none |
| Classifier.ScanFor | shell_api.c:145-186 | The index is 0 or the first operator after the command name with `1 <= i <= count-2`; it is 0 iff the operator is first or absent from positions 1..count-2; a syntax error is reported iff the operator is first, or is the last token and occurs nowhere else after the first |
| Classifier.Governing | shell_api.c:102-109 | The split index is 0 iff both scans gave 0, is one of the two, and is no larger than either non-zero one |
| Classifier.SplitAround | shell_api.c:113-120 | `cmd1 + [cmd[index]] + cmd2 == cmd`, with `|cmd1| == index` and both halves non-empty |
| Classifier.PipeCommand | shell_api.c:294-296 | A pipe is refused iff either side starts with a built-in; otherwise the left side feeds the right side |
| Classifier.RedirectCommand | shell_api.c:279-283 | A redirection is refused iff the command is a built-in; otherwise output goes to the first token after `>` |
| Classifier.SplitAction | shell_api.c:112-125 | When the pipe index governs, the line is refused iff the first word or the word after the `\|` is a built-in, and otherwise runs as the pipeline of the two halves; when the redirection index governs, it is refused iff the first word is a built-in, and otherwise redirects the left half into the token after `>`; a pipeline's left half holds no `\|` (nor `>` unless the line starts with one), and likewise for a redirection |
| Classifier.ExecuteCommand | shell_api.c:101-130 | Each scan's syntax error is reported iff that scan flags one, the pipe's before the redirection's; a line runs unsplit iff both scans gave 0, as the built-in it names or else as a program with the whole token list |
| Classifier.PresentIndicesDiffer | shell_api.c:103-107 | The pipe and redirection indices never coincide when both are present |
| Classifier.PipeWinsIffFirst | shell_api.c:106-125 | The line is treated as a pipe iff a valid `|` precedes every valid `>`, and as a redirection iff a valid `>` comes first |
| Classifier.ListIntoWordCount | shell_api.c:145-164 | `ls -l \| wc` splits at index 2 into the pipeline `ls -l` into `wc` with no diagnostic |
| Classifier.RedirectIntoFile | shell_api.c:167-186 | `cmd > out.txt` splits at index 1 and redirects `cmd` into `out.txt` |
| Classifier.LeadingPipe | shell_api.c:147-148 | `\| x` reports a pipe syntax error, has no split, and runs as a program named `\|` |
| Classifier.TrailingPipe | shell_api.c:147-148 | `cmd \|` reports a pipe syntax error and runs unsplit |
| Classifier.RedirectedBuiltinRefused | shell_api.c:279-281 | `pwd > out.txt` is refused |
| Classifier.PipedBuiltinRefused | shell_api.c:294-296 | Any pipeline with a built-in on either side is refused |
| Classifier.PipeOfProgramsRuns | shell_api.c:112-125 | Conversely, a pipeline whose two sides start with programs, and whose left side holds no operator, runs as exactly that pipeline |
| Jobs.Append | shell_api.c:58-61 | Appending grows the table by one, puts `(pid, name)` last, and leaves every earlier entry as it was |
| Jobs.Remove | shell_api.c:267-272 | Removing job `k` shortens the table by one, keeps entries before `k`, and moves each later entry down one place |
| Jobs.RemoveAppended | shell_api.c:58-61 | Removing the job just appended restores the earlier table |
| Jobs.RemoveTakesOne | shell_api.c:267-272 | Removal takes exactly job `k` out of the table's multiset of entries |
| Jobs.FgSlotAsWritten | shell_api.c:261-266 | The source's guard admits a job number iff it is non-zero and at most the count, and selects slot `job - 1` |
| Jobs.FgGuardAdmitsNegativeJob | shell_api.c:264-266 | With one job, job number -1 passes that guard and selects slot -2, outside the table, while the corrected guard rejects it |
| Jobs.FgSlot | shell_api.c:261-266 | The corrected guard admits exactly `1..count` and selects a slot inside the table |
| Jobs.FgSlotAgreesOnNaturals | shell_api.c:261-264 | The two guards agree on every job number that is not negative |
| Jobs.Fg | shell_api.c:259-276 | `fg 0` reports the missing job and `fg k` with `k > count` reports not found, both leaving the table unchanged; `fg k` with `1 <= k <= count` gives the terminal to job `k`'s process and removes it; a negative `k` takes the corrected guard (see Findings) |
| Jobs.MyFg | shell_api.c:259-276 | The shift loop on the two parallel arrays keeps them equally long and paired, and leaves exactly the table and report that `Fg` gives, for every job number |
| Jobs.UnlistReadsBack | shell_api.c:255 | Job lines carrying each entry's pid and name, in order, read back to the table |
| Jobs.MyJobs | shell_api.c:249-256 | An empty table gives the one informational line; otherwise exactly one line `[i] pid name` per job for `i = 1..n`, in table order; the lines read back to the table |
| Jobs.ListedNumberForegrounds | shell_api.c:255-266 | The number printed in front of a listed job is a number `fg` accepts, and it selects that job's process |
| Jobs.ReversePermutes | shell_api.c:237-238 | That walk visits the same multiset of entries as the table holds |
| Jobs.Drain | shell_api.c:237-238 | The drain sends one SIGTERM per entry, last entry first |
| Jobs.DrainSignalsEachJobOnce | shell_api.c:237-241 | Every tracked pid receives exactly as many drain signals as it has entries in the table |
| Jobs.MyExit | shell_api.c:235-246 | Exit sends the drain signals, then SIGKILL to the foreground slot, leaves the table empty, and ends with status 0 |
| Jobs.ExitWithTwoJobs | shell_api.c:237-243 | With two jobs, exit terminates the newer job, then the older one, then kills the foreground slot, and leaves an empty table |
| Shell.MainTurn | shell_api.c:43-64 | No data runs the exit sequence with the current slot, and a failed fork runs it with slot -1; otherwise the child takes the slot, a background line appends it as a job named by its first token (NULL when there is none) without waiting, a foreground line waits and keeps the table, and the child executes the tokens, or faults in `strcmp` when there is none |
| Shell.BackgroundLineAddsOneJob | shell_api.c:58-61 | A line with `&` adds exactly one job (the child, under the first token) at the end, leaves earlier jobs in place, and does not wait |
| Shell.ForegroundLineKeepsJobs | shell_api.c:62-63 | A line without `&` leaves the job table unchanged and waits for the child |
| Shell.ListRecordedAsJob | shell_api.c:44-61 | `ls -l &` appends the child as job `ls` and the child runs `ls -l` |

## Left out

- Signal handlers for SIGINT and SIGTSTP (shell_api.c:133-142) and their installation (shell_api.c:36-41) are left out. They are asynchronous and their whole effect is a kill or nothing.
- `fork`, `execvp` and `waitpid` are left out (shell_api.c:46-63, 129). So are `open`, `pipe`, `dup2` and `close` in `redirectOutput` and `pipeCommand` (shell_api.c:283-290, 298-318). These are operating-system effects. The model ends at the `Action` value. In a `Pipeline`, the producer is run by the process that called `pipeCommand` itself (shell_api.c:317), not by a new child.
- The reports of a failed `pipe` call and of a failed `fork` inside `pipeCommand` are left out (shell_api.c:299-305). They depend on the operating system.
- The exact text of diagnostics is not modelled, only which diagnostic occurs. The swapped command names in the two `execvp` failure messages of `pipeCommand` (shell_api.c:311, 317) are an instance.
- The process boundary is left out: built-ins run in the forked child (shell_api.c:46-54), so `fg` edits the child's copy of the table. `Fg`, `MyJobs` and `MyExit` are pure operations on a given table.
- The foreground slot is an input (`foreground`); the model does not interpret the pid it signals. In the child the slot holds 0, and after a failed fork it holds -1. For `kill` these mean the whole process group and every process the user may signal.
- `my_cd` and `my_pwd` are thin wrappers over `chdir`, `getcwd` and `pathconf` (shell_api.c:209-232), so they are left out. Only their recognition as built-ins is modelled. `tcsetpgrp` (shell_api.c:266) appears only as the `Foregrounded(pid)` report.
- The conversion of `fg`'s argument with `(int)*cmd[1]` is left out (shell_api.c:202). It takes a character code, and a missing argument dereferences NULL. `Fg` and `MyFg` take the job number as an integer.
- The unreachable final branch of `executeBuiltInCommand` (shell_api.c:205) is left out.
- Memory handling is not reproduced. This covers the one-slot `malloc` arrays that are never grown (shell_api.c:29-30), `free` inside the drain loop (shell_api.c:239-240), and `memset(args, 0, 20)` clearing 20 bytes (shell_api.c:66). The table is an unbounded sequence.
- The prompt, `getline` and `printf` are I/O (shell_api.c:78-82). A read is the `LineInput` value, and listing lines are `ListLine` values.
- Tokenizer.GetCommand: a line with more than 19 tokens is excluded by its precondition, because `args[i]` is written without a bound check (shell_api.c:94-96). `Tokens` itself is total.
- Tokenizer.Truncate: assumes a signed plain `char` (x86-64). Where plain `char` is unsigned (AArch64, ARM, PowerPC and RISC-V Linux), `token[j] <= 32` keeps bytes of 0x80 and above, and the model cuts there instead.
- Tokenizer.IsCut: a `char` above 255 is not a byte. It cannot come from `getline`, and the model treats it as cutting.
- Jobs.Fg: a negative job number takes the corrected guard and reports not found with the table unchanged. The source's guard (shell_api.c:264) lets it through to `processes[job - 1]` with a negative index, which has no defined outcome. See Findings.
- Jobs.MyFg: the same corrected guard for negative job numbers as `Jobs.Fg`.
- Classifier.ExecuteCommand: an empty token list is excluded by its precondition, because `strcmp(cmd[0], …)` on NULL is undefined (shell_api.c:147). In `Shell.MainTurn` that case is the child outcome `EmptyCommandFault`.

## Findings

| source | as written | input that shows it | evidently intended | confidence | as-written member | corrected member |
|---|---|---|---|---|---|---|
| shell_api.c:264 | `my_fg` treats any job number other than 0 that is `<= num_of_processes` as valid, so it accepts negative numbers | `my_fg(-1)` with one job passes the guard, then reads `processes[-2]` and the shift loop writes from slot -2 | accept only `1 <= job <= num_of_processes`; report anything else as not found | not executed; the shell's own `fg` passes the first byte of a token, which lies in 33..127, so only a direct caller of `my_fg` can give a negative number | Jobs.FgSlotAsWritten | Jobs.FgSlot |
