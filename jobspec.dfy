/*
 * The job slots of tsh: g_runningPid and g_suspendedPid, together with what
 * the shell has written and which kill(2) calls it has made, as pure
 * transitions. Every operating-system interaction is an input (the results
 * waitpid reports, what fork returns, which signal arrives next) or an entry
 * appended to the log.
 *
 * The class in tsh.dfy performs these steps on mutable fields and is proved
 * to agree with the functions here; the lemmas here state what tsh.c does
 * with the slots.
 */
module JobSpec {
  import Tokenizer
  import opened Options

  /** Linux signal numbers of the signals tsh sends or reports. */
  const SIGINT: int := 2
  const SIGCONT: int := 18
  const SIGTSTP: int := 20
  /** The errno that sigsuspend always returns with (Linux numbering). */
  const EINTR: int := 4

  /** What waitpid reports about one child. */
  datatype WaitStatus = Exited(code: int) | Signaled(signo: int) | Stopped(signo: int)

  /** One positive waitpid result: the child's pid and its status. */
  datatype Reaped = Reaped(pid: int, status: WaitStatus)

  /** How the reaping loop ends: waitpid returns 0 (no further child has
      changed state) or -1 with an error code in errno. */
  datatype PollEnd = NothingReady | PollFailed(err: int)

  /** A signal that reaches the shell while it waits in sigsuspend. */
  datatype Delivery = Chld(reaped: seq<Reaped>, end: PollEnd) | Int | Tstp

  /** What the shell does to the outside world, in order. */
  datatype Output =
    | Kill(pgid: int, signo: int)               // kill(pgid, signo)
    | TerminatedNotice(pid: int, signo: int)    // "Job (pid) terminated by signal signo"
    | StoppedNotice(pid: int, signo: int)       // "Job (pid) stopped by signal signo"
    | BackgroundNotice(pid: int, line: string)  // "(pid) line"
    | CommandNotFound(name: string)             // "name: Command not found", by the child
    | ForkError(err: int)                       // "fork error (...) -- quitting"

  /** The two job slots and everything written and sent so far. */
  datatype Shell = Shell(running: int, suspended: int, log: seq<Output>)

  /** How a step ends: control goes back to the read loop, the process
      exits with a code, it is still blocked in waitfg when no further signal
      is given, or the child's image is replaced by the program. */
  datatype Control = Continue | Exit(code: int) | Blocked | Exec(path: string, argv: seq<string>)

  /** The state after a step, how it ended, and the signals not yet delivered. */
  datatype Outcome = Outcome(shell: Shell, control: Control, rest: seq<Delivery>)

  /** What Fork() gives back: it exits on failure, returns 0 in the child
      (where execve succeeds or not) and the child's pid in the parent. */
  datatype ForkResult = ForkFailed(err: int) | InChild(execFails: bool) | InParent(pid: int)

  /** The result of waitfg: the state, whether the loop ended, and what is left. */
  datatype Waited = Waited(shell: Shell, done: bool, rest: seq<Delivery>)

  /** Slots that hold pids or 0, and never the same job in both. */
  predicate Valid(sh: Shell) {
    sh.running >= 0 && sh.suspended >= 0 && (sh.running == 0 || sh.running != sh.suspended)
  }

  // ---------------------------------------------------------------------
  // sigchld_handler
  // ---------------------------------------------------------------------

  /** One turn of the reaping loop: the running slot empties, and the
      suspended slot either stays or, on a stop, takes the running pid. */
  function ReapOne(sh: Shell, r: Reaped): (next: Shell)
    ensures next.running == 0
    ensures next.suspended == (if r.status.Stopped? then sh.running else sh.suspended)
  {
    match r.status
    case Signaled(n) => Shell(0, sh.suspended, sh.log + [TerminatedNotice(r.pid, n)])
    case Stopped(n) => Shell(0, sh.running, sh.log + [StoppedNotice(r.pid, n)])
    case Exited(_) => Shell(0, sh.suspended, sh.log)
  }

  /** The reaping loop over the children waitpid reports, in order. */
  function Sigchld(sh: Shell, rs: seq<Reaped>): (r: Shell)
    ensures sh.log <= r.log
    ensures Valid(sh) ==> Valid(r)
    decreases |rs|
  {
    if rs == [] then sh else Sigchld(ReapOne(sh, rs[0]), rs[1..])
  }

  /** The notice printed for one reaped child: none for a normal exit. */
  function Notice(r: Reaped): (out: seq<Output>)
    ensures |out| <= 1 && (out == [] <==> r.status.Exited?)
  {
    match r.status
    case Signaled(n) => [TerminatedNotice(r.pid, n)]
    case Stopped(n) => [StoppedNotice(r.pid, n)]
    case Exited(_) => []
  }

  /** The notices for a sequence of reaped children. */
  function Notices(rs: seq<Reaped>): (out: seq<Output>)
    ensures |out| <= |rs|
    decreases |rs|
  {
    if rs == [] then [] else Notice(rs[0]) + Notices(rs[1..])
  }

  /** Each reaped child empties the running slot; with none reported nothing changes. */
  lemma {:induction false} SigchldClearsRunning(sh: Shell, rs: seq<Reaped>)
    ensures rs == [] ==> Sigchld(sh, rs) == sh
    ensures rs != [] ==> Sigchld(sh, rs).running == 0
    decreases |rs|
  {
    if |rs| > 1 {
      SigchldClearsRunning(ReapOne(sh, rs[0]), rs[1..]);
    }
  }

  /** rs[k] is the last stopped child in rs. */
  ghost predicate LastStop(rs: seq<Reaped>, k: nat) {
    k < |rs| && rs[k].status.Stopped? && forall m :: k < m < |rs| ==> !rs[m].status.Stopped?
  }

  /** The suspended slot after a delivery: unchanged if no child stopped; if
      the last stopped child is the first one reported, the pid that was
      running; if another child was reaped before it, 0, so that job is lost
      from the slots. */
  lemma {:induction false} SigchldSuspended(sh: Shell, rs: seq<Reaped>)
    ensures (forall k :: 0 <= k < |rs| ==> !rs[k].status.Stopped?) ==>
      Sigchld(sh, rs).suspended == sh.suspended
    ensures forall k :: 0 <= k < |rs| && LastStop(rs, k) ==>
      Sigchld(sh, rs).suspended == (if k == 0 then sh.running else 0)
    decreases |rs|
  {
    if rs != [] {
      var next := ReapOne(sh, rs[0]);
      SigchldSuspended(next, rs[1..]);
      assert Sigchld(sh, rs) == Sigchld(next, rs[1..]);
      forall k | 0 < k < |rs| && LastStop(rs, k)
        ensures Sigchld(sh, rs).suspended == 0
      {
        assert rs[1..][k - 1] == rs[k];
        assert forall m :: k - 1 < m < |rs| - 1 ==> rs[1..][m] == rs[m + 1];
        assert LastStop(rs[1..], k - 1);
        assert next.running == 0;
      }
      if forall m :: 0 < m < |rs| ==> !rs[m].status.Stopped? {
        assert forall m :: 0 <= m < |rs| - 1 ==> rs[1..][m] == rs[m + 1];
      }
    }
  }

  /** The handler writes one notice per child killed by a signal or stopped,
      in the order waitpid reports them, and nothing for a normal exit. */
  lemma {:induction false} SigchldLog(sh: Shell, rs: seq<Reaped>)
    ensures Sigchld(sh, rs).log == sh.log + Notices(rs)
    decreases |rs|
  {
    if rs != [] {
      SigchldLog(ReapOne(sh, rs[0]), rs[1..]);
      assert ReapOne(sh, rs[0]).log == sh.log + Notice(rs[0]);
    }
  }

  /** A single reported child, status by status. */
  lemma SigchldOne(sh: Shell, r: Reaped)
    ensures r.status.Signaled? ==>
      Sigchld(sh, [r]) == Shell(0, sh.suspended, sh.log + [TerminatedNotice(r.pid, r.status.signo)])
    ensures r.status.Stopped? ==>
      Sigchld(sh, [r]) == Shell(0, sh.running, sh.log + [StoppedNotice(r.pid, r.status.signo)])
    ensures r.status.Exited? ==> Sigchld(sh, [r]) == Shell(0, sh.suspended, sh.log)
  {
    assert [r][1..] == [];
  }

  // ---------------------------------------------------------------------
  // sigint_handler, sigtstp_handler
  // ---------------------------------------------------------------------

  /** Pass signo on to the foreground process group, if there is one. */
  function Relay(sh: Shell, signo: int): (next: Shell)
    ensures next.running == sh.running && next.suspended == sh.suspended
    ensures sh.log <= next.log
  {
    if sh.running > 0 then sh.(log := sh.log + [Kill(-sh.running, signo)]) else sh
  }

  /** A relay never touches the slots, and it sends exactly one kill, to the
      group of the running pid, when that pid is positive. */
  lemma RelayTarget(sh: Shell, signo: int)
    ensures Relay(sh, signo).running == sh.running && Relay(sh, signo).suspended == sh.suspended
    ensures sh.running > 0 <==> Relay(sh, signo).log == sh.log + [Kill(-sh.running, signo)]
    ensures sh.running <= 0 <==> Relay(sh, signo).log == sh.log
  {
  }

  /** The handler that runs for a delivered signal. */
  function Deliver(sh: Shell, d: Delivery): (r: Shell)
    ensures sh.log <= r.log
    ensures Valid(sh) ==> Valid(r)
  {
    match d
    case Chld(rs, _) => Sigchld(sh, rs)
    case Int => Relay(sh, SIGINT)
    case Tstp => Relay(sh, SIGTSTP)
  }

  // ---------------------------------------------------------------------
  // waitfg
  // ---------------------------------------------------------------------

  /** `while (g_runningPid != 0) sigsuspend(...)`: each sigsuspend returns
      after one delivered signal has been handled. */
  function Waitfg(sh: Shell, ds: seq<Delivery>): (w: Waited)
    ensures w.done <==> w.shell.running == 0
    ensures !w.done ==> w.rest == []
    ensures sh.log <= w.shell.log
    ensures Valid(sh) ==> Valid(w.shell)
    decreases |ds|
  {
    if sh.running == 0 then Waited(sh, true, ds)
    else if ds == [] then Waited(sh, false, [])
    else Waitfg(Deliver(sh, ds[0]), ds[1..])
  }

  /** The signals the wait leaves undelivered are the tail of ds: it
      consumes a prefix of them, in order. */
  lemma {:induction false} WaitfgSuffix(sh: Shell, ds: seq<Delivery>)
    ensures var w := Waitfg(sh, ds); |w.rest| <= |ds| && w.rest == ds[|ds| - |w.rest|..]
    decreases |ds|
  {
    if sh.running != 0 && ds != [] {
      WaitfgSuffix(Deliver(sh, ds[0]), ds[1..]);
      var r := Waitfg(sh, ds).rest;
      assert ds[1..][|ds| - 1 - |r|..] == ds[|ds| - |r|..];
    }
  }

  /** A SIGCHLD that reports at least one child ends the wait at once, and
      the signals after it stay undelivered. */
  lemma WaitfgEndsOnReap(sh: Shell, ds: seq<Delivery>)
    requires sh.running != 0 && |ds| > 0 && ds[0].Chld? && ds[0].reaped != []
    ensures Waitfg(sh, ds) == Waited(Sigchld(sh, ds[0].reaped), true, ds[1..])
  {
    SigchldClearsRunning(sh, ds[0].reaped);
  }

  /** Interrupt and suspend signals alone never end the wait: only SIGCHLD
      empties the running slot. */
  lemma {:induction false} WaitfgNeedsSigchld(sh: Shell, ds: seq<Delivery>)
    requires sh.running != 0 && forall k :: 0 <= k < |ds| ==> !ds[k].Chld?
    ensures !Waitfg(sh, ds).done
    decreases |ds|
  {
    if ds != [] {
      WaitfgNeedsSigchld(Deliver(sh, ds[0]), ds[1..]);
    }
  }

  // ---------------------------------------------------------------------
  // builtin_cmd
  // ---------------------------------------------------------------------

  /** builtin_cmd for a command named name: None when it returns 0 (not a
      built-in); otherwise what running the built-in does. */
  function Builtin(sh: Shell, name: string, ds: seq<Delivery>): (o: Option<Outcome>)
    ensures o.None? <==> name != "quit" && name != "fg"
    ensures o.Some? && o.value.control == Blocked ==> o.value.rest == []
  {
    if name == "quit" then
      Some(Outcome(sh, Exit(0), ds))
    else if name == "fg" then
      if sh.suspended > 0 then
        var w := Waitfg(Shell(sh.suspended, 0, sh.log + [Kill(-sh.suspended, SIGCONT)]), ds);
        Some(Outcome(w.shell, if w.done then Continue else Blocked, w.rest))
      else
        Some(Outcome(sh, Continue, ds))
    else
      None
  }

  /** Only quit and fg are built-ins; any other command leaves everything alone. */
  lemma BuiltinNames(sh: Shell, name: string, ds: seq<Delivery>)
    ensures Builtin(sh, name, ds).None? <==> name != "quit" && name != "fg"
    ensures name == "quit" ==> Builtin(sh, name, ds) == Some(Outcome(sh, Exit(0), ds))
  {
  }

  /** fg with a suspended job: the job moves to the running slot, the
      suspended slot empties, SIGCONT goes to its process group before
      anything else is written, and the shell waits for it. */
  lemma FgResumes(sh: Shell, ds: seq<Delivery>)
    requires sh.suspended > 0
    ensures Builtin(sh, "fg", ds).Some?
    ensures var o := Builtin(sh, "fg", ds).value;
      var w := Waitfg(Shell(sh.suspended, 0, sh.log + [Kill(-sh.suspended, SIGCONT)]), ds);
      && o.shell == w.shell && o.rest == w.rest
      && sh.log + [Kill(-sh.suspended, SIGCONT)] <= o.shell.log
      && (o.control == Continue <==> o.shell.running == 0)
      && (o.control == Continue || o.control == Blocked)
  {
    var sh3 := Shell(sh.suspended, 0, sh.log + [Kill(-sh.suspended, SIGCONT)]);
    FgWaits(sh, ds, sh3, Waitfg(sh3, ds));
  }

  /** fg with nothing suspended changes nothing and sends nothing. */
  lemma FgWithoutJob(sh: Shell, ds: seq<Delivery>)
    requires sh.suspended <= 0
    ensures Builtin(sh, "fg", ds) == Some(Outcome(sh, Continue, ds))
  {
  }

  /** ctrl-z on a foreground job: SIGTSTP goes to its group, the stop
      notice is written, the job moves to the suspended slot and the wait ends. */
  lemma SuspendByCtrlZ(log: seq<Output>, pid: int)
    requires pid > 0
    ensures Waitfg(Shell(pid, 0, log), [Tstp, Chld([Reaped(pid, Stopped(SIGTSTP))], NothingReady)]) ==
      Waited(Shell(0, pid, log + [Kill(-pid, SIGTSTP), StoppedNotice(pid, SIGTSTP)]), true, [])
  {
    var reap := Chld([Reaped(pid, Stopped(SIGTSTP))], NothingReady);
    var sh1 := Relay(Shell(pid, 0, log), SIGTSTP);
    assert sh1 == Shell(pid, 0, log + [Kill(-pid, SIGTSTP)]);
    SigchldOne(sh1, Reaped(pid, Stopped(SIGTSTP)));
    var sh2 := Shell(0, pid, log + [Kill(-pid, SIGTSTP), StoppedNotice(pid, SIGTSTP)]);
    assert Deliver(sh1, reap) == sh2;
    assert [Tstp, reap][1..] == [reap];
    assert [reap][1..] == [];
    assert Waitfg(sh1, [reap]) == Waitfg(sh2, []);
  }

  /** fg on a suspended job that then exits: SIGCONT goes to its group, the
      first SIGCHLD ends the wait, both slots are empty afterwards and the
      signals after that SIGCHLD stay undelivered. */
  lemma ResumeWithFg(sh: Shell, ds: seq<Delivery>, code: int)
    requires sh.suspended > 0 && |ds| > 0 && ds[0].Chld?
    requires ds[0].reaped == [Reaped(sh.suspended, Exited(code))]
    ensures Builtin(sh, "fg", ds) ==
      Some(Outcome(Shell(0, 0, sh.log + [Kill(-sh.suspended, SIGCONT)]), Continue, ds[1..]))
  {
    var sh3 := Shell(sh.suspended, 0, sh.log + [Kill(-sh.suspended, SIGCONT)]);
    var r := Reaped(sh.suspended, Exited(code));
    WaitfgEndsOnReap(sh3, ds);
    SigchldOne(sh3, r);
    var w := Waited(Shell(0, 0, sh3.log), true, ds[1..]);
    assert Waitfg(sh3, ds) == w;
    FgWaits(sh, ds, sh3, w);
  }

  /** fg with a suspended job is the wait w that starts from the resumed shell sh3. */
  lemma FgWaits(sh: Shell, ds: seq<Delivery>, sh3: Shell, w: Waited)
    requires sh.suspended > 0 && sh3 == Shell(sh.suspended, 0, sh.log + [Kill(-sh.suspended, SIGCONT)])
    requires w == Waitfg(sh3, ds)
    ensures Builtin(sh, "fg", ds) == Some(Outcome(w.shell, if w.done then Continue else Blocked, w.rest))
  {
    assert "fg" != "quit";
  }

  // ---------------------------------------------------------------------
  // eval
  // ---------------------------------------------------------------------

  /** The part of eval after the built-in check: fork, and then exec in the
      child or wait / announce in the parent. */
  function Launch(sh: Shell, args: seq<string>, bg: int, line: string, fork: ForkResult, ds: seq<Delivery>): (o: Outcome)
    requires |args| > 0
    ensures o.control == Exit(-1) <==> fork.ForkFailed?
    ensures o.control.Exec? ==> fork == InChild(false) && o.control == Exec(args[0], args)
  {
    match fork
    case ForkFailed(err) =>
      Outcome(sh.(log := sh.log + [ForkError(err)]), Exit(-1), ds)
    case InChild(execFails) =>
      if execFails then Outcome(Shell(0, sh.suspended, sh.log + [CommandNotFound(args[0])]), Exit(1), ds)
      else Outcome(sh.(running := 0), Exec(args[0], args), ds)
    case InParent(pid) =>
      if bg == 0 then
        var w := Waitfg(sh.(running := pid), ds);
        Outcome(w.shell, if w.done then Continue else Blocked, w.rest)
      else
        Outcome(Shell(pid, sh.suspended, sh.log + [BackgroundNotice(pid, line)]), Continue, ds)
  }

  /** eval on one input line. */
  function Evaluate(sh: Shell, line: string, fork: ForkResult, ds: seq<Delivery>): (o: Outcome)
    requires |line| > 0
    ensures o.control.Exec? ==> fork == InChild(false)
  {
    var p := Tokenizer.Parse(line);
    if p.args == [] then Outcome(sh, Continue, ds)
    else match Builtin(sh, p.args[0], ds)
      case Some(o) => o
      case None => Launch(sh, p.args, p.bg, line, fork, ds)
  }

  /** A line without arguments does nothing at all. */
  lemma BlankLineIsNoOp(sh: Shell, line: string, fork: ForkResult, ds: seq<Delivery>)
    requires |line| > 0 && forall k :: 0 <= k < |line| - 1 ==> line[k] == ' '
    ensures Evaluate(sh, line, fork, ds) == Outcome(sh, Continue, ds)
  {
    Tokenizer.BlankLine(line);
  }

  /** A foreground command returns to the read loop only once its pid has
      been taken out of the running slot, and during the wait the shell
      writes nothing but what the handlers write. */
  lemma ForegroundWaits(sh: Shell, line: string, pid: int, ds: seq<Delivery>)
    requires |line| > 0 && pid > 0
    requires var p := Tokenizer.Parse(line); p.args != [] && p.bg == 0 && p.args[0] != "quit" && p.args[0] != "fg"
    ensures var o := Evaluate(sh, line, InParent(pid), ds);
      && (o.control == Continue <==> o.shell.running == 0)
      && (o.control == Continue || o.control == Blocked)
      && o.shell == Waitfg(sh.(running := pid), ds).shell
  {
  }

  /** A background launch still records its pid in the running slot, so a
      later ctrl-c or ctrl-z is sent to the background job's group. */
  lemma BackgroundLaunch(sh: Shell, line: string, pid: int, ds: seq<Delivery>)
    requires |line| > 0 && pid > 0
    requires var p := Tokenizer.Parse(line); p.args != [] && p.bg == 1 && p.args[0] != "quit" && p.args[0] != "fg"
    ensures var o := Evaluate(sh, line, InParent(pid), ds);
      && o == Outcome(Shell(pid, sh.suspended, sh.log + [BackgroundNotice(pid, line)]), Continue, ds)
      && Relay(o.shell, SIGINT).log == o.shell.log + [Kill(-pid, SIGINT)]
  {
  }

  /** A failed fork reports the error and makes the shell exit with -1,
      before anything is stored in the running slot. */
  lemma ForkFailure(sh: Shell, args: seq<string>, bg: int, line: string, ds: seq<Delivery>, err: int)
    requires |args| > 0
    ensures Launch(sh, args, bg, line, ForkFailed(err), ds) ==
      Outcome(sh.(log := sh.log + [ForkError(err)]), Exit(-1), ds)
  {
  }

  /** In the child the running slot holds the 0 fork returned; an execve
      that fails reports the command name and exits with 1, one that
      succeeds runs the program with the whole argument vector. */
  lemma ChildExec(sh: Shell, args: seq<string>, bg: int, line: string, ds: seq<Delivery>)
    requires |args| > 0
    ensures var o := Launch(sh, args, bg, line, InChild(true), ds);
      o.control == Exit(1) && o.shell.running == 0 && o.shell.log == sh.log + [CommandNotFound(args[0])]
    ensures var o := Launch(sh, args, bg, line, InChild(false), ds);
      o.control == Exec(args[0], args) && o.shell.running == 0 && o.shell.log == sh.log
  {
  }

  /** A fork result the operating system can give while sh is the state: a
      positive pid in the parent, and not one of a job still in the
      suspended slot. */
  predicate PossibleFork(sh: Shell, fork: ForkResult) {
    fork.InParent? ==> fork.pid > 0 && fork.pid != sh.suspended
  }

  /** Every step keeps the slots valid. */
  lemma EvaluateValid(sh: Shell, line: string, fork: ForkResult, ds: seq<Delivery>)
    requires |line| > 0 && Valid(sh) && PossibleFork(sh, fork)
    ensures Valid(Evaluate(sh, line, fork, ds).shell)
  {
  }

  /** Every handler keeps the slots valid. */
  lemma DeliverValid(sh: Shell, d: Delivery)
    requires Valid(sh)
    ensures Valid(Deliver(sh, d))
  {
  }
}
