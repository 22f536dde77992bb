/**
 The background-job table of the shell (shell_api.c): the append done by
 `main` when a command is backgrounded, the removal and compaction done by
 `my_fg`, the listing printed by `my_jobs`, and the drain done by `my_exit`.

 The source keeps two parallel arrays, `processes` and `names`, and a count;
 the table is their zip, a sequence of `Job`s indexed from 1 by the user.
 A job's name is the pointer `args[0]`, which is NULL when the backgrounded
 line had no token at all, hence `Option<string>`.
 */
module Jobs {
  import opened Options

  datatype Job = Job(pid: int, name: Option<string>)

  /** The `processes` column of a table. */
  function Pids(t: seq<Job>): (r: seq<int>)
    ensures |r| == |t|
    ensures forall i :: 0 <= i < |t| ==> r[i] == t[i].pid
  {
    if |t| == 0 then [] else [t[0].pid] + Pids(t[1..])
  }

  /** The table held by the parallel arrays: entry `i` pairs `pids[i]` with `names[i]`. */
  function Zip(pids: seq<int>, names: seq<Option<string>>): (t: seq<Job>)
    requires |pids| == |names|
    ensures |t| == |pids|
    ensures forall i :: 0 <= i < |t| ==> t[i] == Job(pids[i], names[i])
  {
    seq(|pids|, i requires 0 <= i < |pids| => Job(pids[i], names[i]))
  }

  // ---------------------------------------------------------------------
  // Append (`main`, after forking a background command)

  /** Record a backgrounded child: it becomes job number `|t| + 1`, and nothing else moves. */
  function Append(t: seq<Job>, pid: int, name: Option<string>): (r: seq<Job>)
    ensures |r| == |t| + 1
    ensures r[|t|] == Job(pid, name)
    ensures forall i :: 0 <= i < |t| ==> r[i] == t[i]
  {
    t + [Job(pid, name)]
  }

  // ---------------------------------------------------------------------
  // Removal (`my_fg`)

  /** Job number `k` leaves the table; later jobs move down one place, pid and name together. */
  function Remove(t: seq<Job>, k: int): (r: seq<Job>)
    requires 1 <= k <= |t|
    ensures |r| == |t| - 1
    ensures forall i :: 0 <= i < k - 1 ==> r[i] == t[i]
    ensures forall i :: k - 1 <= i < |r| ==> r[i] == t[i + 1]
  {
    t[..k - 1] + t[k..]
  }

  /** Removing the job just appended gives back the table it was appended to. */
  lemma RemoveAppended(t: seq<Job>, pid: int, name: Option<string>)
    ensures Remove(Append(t, pid, name), |t| + 1) == t
  {
  }

  /** Removal takes exactly the chosen job out of the table's contents. */
  lemma RemoveTakesOne(t: seq<Job>, k: int)
    requires 1 <= k <= |t|
    ensures multiset(Remove(t, k)) + multiset{t[k - 1]} == multiset(t)
  {
    assert t == t[..k - 1] + [t[k - 1]] + t[k..];
  }

  /**
   The array slot `my_fg` would touch for job number `job`, as the source
   guards it: it rejects only 0 and numbers above the count, so a negative
   number gets through and designates the slot `job - 1 < 0`.
   */
  function FgSlotAsWritten(count: int, job: int): (r: Option<int>)
    ensures r.Some? <==> job != 0 && job <= count
    ensures r.Some? ==> r.value == job - 1
  {
    if job == 0 then None
    else if job <= count then Some(job - 1)
    else None
  }

  /**
   With one job in the table, job number -1 passes the guard and designates
   slot -2, outside the table; the corrected guard rejects it.
   */
  lemma FgGuardAdmitsNegativeJob()
    ensures FgSlotAsWritten(1, -1) == Some(-2)
    ensures FgSlot(1, -1) == None
  {
  }

  /** The guard the range check evidently intends: only job numbers 1 to `count` select a slot. */
  function FgSlot(count: int, job: int): (r: Option<int>)
    ensures r.Some? <==> 1 <= job <= count
    ensures r.Some? ==> 0 <= r.value < count && r.value == job - 1
  {
    if job == 0 then None
    else if 1 <= job <= count then Some(job - 1)
    else None
  }

  /** Both guards agree on every job number that is not negative. */
  lemma FgSlotAgreesOnNaturals(count: int, job: int)
    requires job >= 0
    ensures FgSlot(count, job) == FgSlotAsWritten(count, job)
  {
  }

  /** What `my_fg` reports. */
  datatype FgEvent =
    | MissingJob           // job number 0: "Expected : fg job"
    | JobNotFound          // out of range: "Error, job could not be found."
    | Foregrounded(pid: int) // the terminal is handed to this process

  datatype FgResult = FgResult(table: seq<Job>, event: FgEvent)

  /**
   `fg k` on the table: a valid job number hands the terminal to that job's
   process and removes it; 0 and out-of-range numbers change nothing. A
   negative number takes the corrected guard `FgSlot` and is not found; the
   source's own guard lets it through to an out-of-bounds slot, which has no
   defined outcome to model.
   */
  function Fg(t: seq<Job>, k: int): (r: FgResult)
    ensures k == 0 ==> r == FgResult(t, MissingJob)
    ensures (k < 0 || k > |t|) ==> r == FgResult(t, JobNotFound)
    ensures 1 <= k <= |t| ==> r == FgResult(Remove(t, k), Foregrounded(t[k - 1].pid))
    ensures |r.table| == (if r.event.Foregrounded? then |t| - 1 else |t|)
  {
    if k == 0 then FgResult(t, MissingJob)
    else
      match FgSlot(|t|, k)
      case Some(slot) => FgResult(Remove(t, k), Foregrounded(t[slot].pid))
      case None => FgResult(t, JobNotFound)
  }

  /**
   `my_fg` on the two parallel arrays: the shift-down loop moves `pids` and
   `names` in step, then the count drops by one. The arrays it leaves zip
   to the table `Fg` describes, negative job numbers included (they take
   the corrected guard).
   */
  method MyFg(pids: seq<int>, names: seq<Option<string>>, job: int)
    returns (pids': seq<int>, names': seq<Option<string>>, event: FgEvent)
    requires |pids| == |names|
    ensures |pids'| == |names'|
    ensures FgResult(Zip(pids', names'), event) == Fg(Zip(pids, names), job)
  {
    var count := |pids|;
    if job == 0 {
      return pids, names, MissingJob;
    }
    var slot := FgSlot(count, job);
    if slot.None? {
      return pids, names, JobNotFound;
    }
    event := Foregrounded(pids[job - 1]);
    var p := pids;
    var n := names;
    var i := job - 1;
    while i < count - 1
      invariant job - 1 <= i <= count - 1
      invariant |p| == count && |n| == count
      invariant forall j :: 0 <= j < job - 1 ==> p[j] == pids[j] && n[j] == names[j]
      invariant forall j :: job - 1 <= j < i ==> p[j] == pids[j + 1] && n[j] == names[j + 1]
      invariant forall j :: i <= j < count ==> p[j] == pids[j] && n[j] == names[j]
    {
      p := p[i := p[i + 1]];
      n := n[i := n[i + 1]];
      i := i + 1;
    }
    pids' := p[..count - 1];
    names' := n[..count - 1];
    ghost var t := Zip(pids, names);
    assert Zip(pids', names') == Remove(t, job);
  }

  // ---------------------------------------------------------------------
  // Listing (`my_jobs`)

  /** One printed line: the empty-table message, or `[index] pid name`. */
  datatype ListLine = NoJobsMessage | JobLine(index: int, pid: int, name: Option<string>)

  /** The jobs a listing shows, read back from its lines. */
  function Unlist(lines: seq<ListLine>): (t: seq<Job>)
    ensures |t| <= |lines|
  {
    if |lines| == 0 then []
    else
      match lines[0]
      case NoJobsMessage => Unlist(lines[1..])
      case JobLine(_, pid, name) => [Job(pid, name)] + Unlist(lines[1..])
  }

  lemma {:induction false} UnlistReadsBack(lines: seq<ListLine>, t: seq<Job>)
    requires |lines| == |t|
    requires forall i :: 0 <= i < |t| ==> lines[i].JobLine? && lines[i].pid == t[i].pid && lines[i].name == t[i].name
    ensures Unlist(lines) == t
  {
    if |t| > 0 {
      UnlistReadsBack(lines[1..], t[1..]);
      assert t == [t[0]] + t[1..];
    }
  }

  /**
   `my_jobs`: the informational line for an empty table; otherwise one line
   per job, numbered from 1, in table order. The lines name every job once
   and nothing else.
   */
  method MyJobs(t: seq<Job>) returns (lines: seq<ListLine>)
    ensures |t| == 0 ==> lines == [NoJobsMessage]
    ensures |t| > 0 ==> |lines| == |t|
    ensures |t| > 0 ==> forall i :: 0 <= i < |t| ==> lines[i] == JobLine(i + 1, t[i].pid, t[i].name)
    ensures Unlist(lines) == t
  {
    if |t| == 0 {
      lines := [NoJobsMessage];
      assert lines[1..] == [];
      return;
    }
    lines := [];
    var i := 1;
    while i <= |t|
      invariant 1 <= i <= |t| + 1
      invariant |lines| == i - 1
      invariant forall j :: 0 <= j < i - 1 ==> lines[j] == JobLine(j + 1, t[j].pid, t[j].name)
    {
      lines := lines + [JobLine(i, t[i - 1].pid, t[i - 1].name)];
      i := i + 1;
    }
    UnlistReadsBack(lines, t);
  }

  /** Every listed line's number is a job number `fg` accepts, and it names that line's process. */
  lemma ListedNumberForegrounds(t: seq<Job>, i: int)
    requires 0 <= i < |t|
    ensures Fg(t, i + 1).event == Foregrounded(t[i].pid)
    ensures |Fg(t, i + 1).table| == |t| - 1
  {
  }

  // ---------------------------------------------------------------------
  // Drain (`my_exit`)

  datatype SignalKind = Term | Kill

  /** One `kill(pid, sig)` call. */
  datatype Signal = Signal(target: int, kind: SignalKind)

  /** The last entry first: the order in which `p[--n]` walks a table. */
  function Reverse<T>(s: seq<T>): (r: seq<T>)
    ensures |r| == |s|
    ensures forall i :: 0 <= i < |s| ==> r[i] == s[|s| - 1 - i]
  {
    if |s| == 0 then [] else [s[|s| - 1]] + Reverse(s[..|s| - 1])
  }

  lemma {:induction false} ReversePermutes<T>(s: seq<T>)
    ensures multiset(Reverse(s)) == multiset(s)
  {
    if |s| > 0 {
      ReversePermutes(s[..|s| - 1]);
      assert s == s[..|s| - 1] + [s[|s| - 1]];
    }
  }

  /** The termination requests `my_exit`'s loop sends while the count runs down to 0. */
  function Drain(t: seq<Job>): (r: seq<Signal>)
    ensures |r| == |t|
    ensures forall i :: 0 <= i < |t| ==> r[i] == Signal(t[|t| - 1 - i].pid, Term)
  {
    if |t| == 0 then [] else [Signal(t[|t| - 1].pid, Term)] + Drain(t[..|t| - 1])
  }

  /** The process each signal goes to. */
  function Targets(signals: seq<Signal>): (r: seq<int>)
    ensures |r| == |signals|
    ensures forall i :: 0 <= i < |signals| ==> r[i] == signals[i].target
  {
    if |signals| == 0 then [] else [signals[0].target] + Targets(signals[1..])
  }

  /** Every tracked process receives exactly as many termination requests as it has entries. */
  lemma DrainSignalsEachJobOnce(t: seq<Job>)
    ensures multiset(Targets(Drain(t))) == multiset(Pids(t))
  {
    assert Targets(Drain(t)) == Reverse(Pids(t));
    ReversePermutes(Pids(t));
  }

  /** What `my_exit` does before `exit(0)`: drain the table, then kill the foreground slot's process. */
  datatype Shutdown = Shutdown(signals: seq<Signal>, table: seq<Job>, status: int)

  /** `my_exit`: the drain, the forceful kill of the foreground slot, an empty table and status 0. */
  function MyExit(t: seq<Job>, foreground: int): (r: Shutdown)
    ensures r.table == [] && r.status == 0
    ensures |r.signals| == |t| + 1
    ensures r.signals[..|t|] == Drain(t)
    ensures r.signals[|t|] == Signal(foreground, Kill)
  {
    Shutdown(Drain(t) + [Signal(foreground, Kill)], [], 0)
  }

  /** `exit` with two background jobs: the newer job is terminated first, then the older, then the foreground. */
  lemma ExitWithTwoJobs(a: Job, b: Job, foreground: int)
    ensures MyExit([a, b], foreground).signals ==
      [Signal(b.pid, Term), Signal(a.pid, Term), Signal(foreground, Kill)]
    ensures MyExit([a, b], foreground).table == []
  {
  }
}
