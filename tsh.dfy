/*
 * The shell's global job slots and the code that updates them in place:
 * sigchld_handler, sigint_handler, sigtstp_handler, waitfg, builtin_cmd and
 * eval. Each handler runs as one atomic step; every method is proved to
 * leave the fields as the matching function of JobSpec says.
 */
module Tsh {
  import Tokenizer
  import opened Options
  import opened JobSpec

  /** The globals of tsh.c that the handlers and eval share. */
  class JobControl {
    /** g_runningPid: the foreground job, or 0. */
    var runningPid: int
    /** g_suspendedPid: the job stopped last, or 0. */
    var suspendedPid: int
    /** errno as the handlers see it. */
    var errno: int
    /** Every notice written and every kill sent, in order. */
    var log: seq<Output>

    /** The slots and the log as a value. */
    function State(): Shell
      reads this
    {
      Shell(runningPid, suspendedPid, log)
    }

    /** The globals start out zero; nothing has been written or sent. */
    constructor ()
      ensures State() == Shell(0, 0, []) && Valid(State())
    {
      runningPid := 0;
      suspendedPid := 0;
      errno := 0;
      log := [];
    }

    /** sigchld_handler: reaps every child waitpid reports (reaped, in order)
        until it returns 0 or fails (end), then restores errno. */
    method SigchldHandler(reaped: seq<Reaped>, end: PollEnd)
      modifies this
      ensures State() == Sigchld(old(State()), reaped)
      ensures errno == old(errno)
    {
      var olderr := errno;
      var i := 0;
      while i < |reaped|
        invariant i <= |reaped|
        invariant Sigchld(State(), reaped[i..]) == Sigchld(old(State()), reaped)
      {
        var r := reaped[i];
        match r.status {
          case Signaled(n) =>
            log := log + [TerminatedNotice(r.pid, n)];
          case Stopped(n) =>
            log := log + [StoppedNotice(r.pid, n)];
            suspendedPid := runningPid;
          case Exited(_) =>
        }
        runningPid := 0;
        assert reaped[i..][1..] == reaped[i + 1..];
        i := i + 1;
      }
      if end.PollFailed? {
        errno := end.err;
      }
      errno := olderr;
    }

    /** sigint_handler: ctrl-c goes to the foreground group, if any. */
    method SigintHandler()
      modifies this
      ensures State() == Relay(old(State()), SIGINT)
    {
      if runningPid > 0 {
        log := log + [Kill(-runningPid, SIGINT)];
      }
    }

    /** sigtstp_handler: ctrl-z goes to the foreground group, if any. */
    method SigtstpHandler()
      modifies this
      ensures State() == Relay(old(State()), SIGTSTP)
    {
      if runningPid > 0 {
        log := log + [Kill(-runningPid, SIGTSTP)];
      }
    }

    /** Runs the handler installed for the signal d. */
    method Handle(d: Delivery)
      modifies this
      ensures State() == Deliver(old(State()), d)
    {
      match d {
        case Chld(rs, end) => SigchldHandler(rs, end);
        case Int => SigintHandler();
        case Tstp => SigtstpHandler();
      }
    }

    /** waitfg: sleeps in sigsuspend, one delivered signal at a time, until
        the running slot is 0; done is false when ds runs out first. Every
        return from sigsuspend leaves errno at EINTR. The pid argument is
        unused, as in the C code. */
    method WaitFg(pid: int, ds: seq<Delivery>) returns (done: bool, rest: seq<Delivery>)
      modifies this
      ensures Waited(State(), done, rest) == Waitfg(old(State()), ds)
      ensures |rest| <= |ds| && errno == if |rest| < |ds| then EINTR else old(errno)
    {
      rest := ds;
      while runningPid != 0 && rest != []
        invariant Waitfg(State(), rest) == Waitfg(old(State()), ds)
        invariant |rest| <= |ds| && errno == if |rest| < |ds| then EINTR else old(errno)
        decreases |rest|
      {
        Handle(rest[0]);
        errno := EINTR;
        rest := rest[1..];
      }
      done := runningPid == 0;
    }

    /** builtin_cmd for a command whose first argument is name: returns 1
        for fg, 0 for anything that is not a built-in, and ends the process
        for quit. control tells whether the process exited or is still
        waiting; rest holds the signals fg's wait did not consume. */
    method BuiltinCmd(name: string, ds: seq<Delivery>) returns (r: int, control: Control, rest: seq<Delivery>)
      modifies this
      ensures match Builtin(old(State()), name, ds)
        case None => r == 0 && control == Continue && rest == ds && State() == old(State())
        case Some(o) => r == 1 && control == o.control && rest == o.rest && State() == o.shell
    {
      if name == "quit" {
        return 1, Exit(0), ds;
      }
      if name == "fg" {
        control, rest := Continue, ds;
        if suspendedPid > 0 {
          runningPid := suspendedPid;
          suspendedPid := 0;
          log := log + [Kill(-runningPid, SIGCONT)];
          var done;
          done, rest := WaitFg(runningPid, rest);
          control := if done then Continue else Blocked;
        }
        return 1, control, rest;
      }
      return 0, Continue, ds;
    }

    /** eval on one input line, with the static buffer of parseline as line,
        the outcome of Fork() as fork, and the signals that arrive while the
        shell waits as ds. */
    method Eval(cmdline: string, line: array<char>, fork: ForkResult, ds: seq<Delivery>)
      returns (control: Control, rest: seq<Delivery>)
      requires 0 < |cmdline| < Tokenizer.MAXLINE && forall k :: 0 <= k < |cmdline| ==> cmdline[k] != Tokenizer.NUL
      requires line.Length == Tokenizer.MAXLINE
      requires |Tokenizer.Spans(Tokenizer.Line(cmdline), 0)| < Tokenizer.MAXARGS
      modifies this, line
      ensures var o := Evaluate(old(State()), cmdline, fork, ds);
        State() == o.shell && control == o.control && rest == o.rest
    {
      var argv := new int[Tokenizer.MAXARGS];
      var bg := Tokenizer.ParseLine(cmdline, line, argv);
      ghost var args := Tokenizer.Parse(cmdline).args;
      if argv[0] == Tokenizer.NULL {
        return Continue, ds;
      }
      var name := Tokenizer.CString(line[..], argv[0]);
      var r;
      r, control, rest := BuiltinCmd(name, ds);
      if r != 0 {
        return;
      }
      match fork {
        case ForkFailed(err) =>
          log := log + [ForkError(err)];
          return Exit(-1), ds;
        case InChild(execFails) =>
          runningPid := 0;
          if execFails {
            log := log + [CommandNotFound(name)];
            return Exit(1), ds;
          }
          var argStrings := ArgVector(line, argv, args);
          return Exec(name, argStrings), ds;
        case InParent(pid) =>
          runningPid := pid;
          if bg == 0 {
            var done;
            done, rest := WaitFg(runningPid, ds);
            control := if done then Continue else Blocked;
          } else {
            log := log + [BackgroundNotice(runningPid, cmdline)];
            control, rest := Continue, ds;
          }
      }
    }
  }

  /** The argument vector execve reads: the strings at the offsets in argv,
      up to its first NULL entry. */
  method ArgVector(line: array<char>, argv: array<int>, ghost args: seq<string>) returns (strings: seq<string>)
    requires |args| < argv.Length && argv[|args|] == Tokenizer.NULL
    requires forall t :: 0 <= t < |args| ==> 0 <= argv[t] < line.Length && Tokenizer.CString(line[..], argv[t]) == args[t]
    ensures strings == args
  {
    strings := [];
    var n := 0;
    while argv[n] != Tokenizer.NULL
      invariant n <= |args| && strings == args[..n]
      decreases |args| - n
    {
      strings := strings + [Tokenizer.CString(line[..], argv[n])];
      n := n + 1;
    }
  }
}
