# tsh: the tiny shell's tokenizer and job slots in Dafny

tsh is a small Unix shell. It reads a line and splits it into arguments. It
runs `quit` and `fg` itself, and for any other command it forks a child that
execs the program. The shell tracks one foreground job (`g_runningPid`) and
one suspended job (`g_suspendedPid`). Signal handlers update those two slots:
SIGCHLD reaps children, and ctrl-c/ctrl-z are relayed to the foreground
process group.

The project has three modules:

- `Tokenizer` (tokenizer.dfy) holds `parseline`.
  - `ParseLine` is a method over the static `line` buffer (`array<char>`)
    and `argv`. `argv` is an `array<int>` of offsets into the buffer, with
    NULL written as -1.
  - Like the C code, it copies the line, replaces its last character with a
    space, and writes NUL over each delimiter.
  - It is proved to produce what the function `Parse` describes. `Parse` is
    built on `Spans`, the arguments of the scanned buffer.
  - `Spans` is in turn proved equal, in both directions, to an independent
    description of the lexing (`Lexes`: well-formed arguments separated only
    by spaces, with nothing lexable left over).
- `JobSpec` (jobspec.dfy) holds the job slots as pure transitions.
  - The state is a `Shell`: the two slots plus a log of every notice written
    and every `kill` made.
  - Operating-system interactions are inputs:
    - the `waitpid` results that one SIGCHLD drains, and how the drain ends;
    - the signals that arrive while `waitfg` sleeps in `sigsuspend`;
    - what `Fork()` returns.
  - The module also holds the lemmas about what tsh.c does with the slots.
- `Tsh` (tsh.dfy) holds the class `JobControl`.
  - Its fields are the globals `g_runningPid` and `g_suspendedPid`, `errno`,
    and the output log.
  - Its methods are the handlers, `waitfg`, `builtin_cmd` and `eval`. Each
    updates the fields in place and is proved to match the `JobSpec`
    function for that step.

Signal numbers are the Linux ones: SIGINT 2, SIGCONT 18, SIGTSTP 20.

## Model

| member | source | states |
|---|---|---|
| Tokenizer.Line | tsh.c:321-322 | The scanned buffer has the line's length. Its last character is a space and every other character is the line's. |
| Tokenizer.SkipSpaces | tsh.c:323-324 | The result is the first position at or after i that is not a space. Everything skipped is a space. |
| Tokenizer.Find | tsh.c:331-335 | strchr: the first position at or after i holding c, or None exactly when no later position holds c. |
| Tokenizer.NextSpan | tsh.c:328-336 | The argument found from i starts at or after i and is delimited inside the buffer. |
| Tokenizer.Spans | tsh.c:338-355 | Every argument found from i lies at or after i and is delimited inside the buffer. |
| Tokenizer.Tokens | tsh.c:338-356 | The defining function of the argument texts: one text for each argument the scan finds (the slice of the buffer its span covers). |
| Tokenizer.Parse | tsh.c:312-367 | The defining function of what parseline leaves in argv and returns. argv is always a prefix of the argument texts and the result is 0 or 1. A result of 0 means argv holds all of them and there is at least one. (Blank line: no arguments and 1; last argument starting with '&': it is dropped and the result is 1.) |
| Tokenizer.SpansLex | tsh.c:322-355 | Soundness: every argument is well formed. Quoted: the text between two quotes, containing no quote. Unquoted: non-empty, not starting with a quote, containing no space, followed by a space. Only spaces separate arguments, and what follows the last one holds no further argument. |
| Tokenizer.LexesUnique | tsh.c:322-355 | Completeness: any sequence of arguments that lexes the buffer that way is exactly the one the scan produces. |
| Tokenizer.TokenBoundaries | tsh.c:322-354 | Each argument of a line is a quoted text without quotes, between two quotes. Otherwise it is a non-empty run without spaces, not starting with a quote and ended by a space; the line's final character counts as a space. |
| Tokenizer.UnterminatedQuote | tsh.c:338-350 | Scanning stops at the end of the line or at an opening quote with no closing quote after it. The arguments are exactly those of the buffer cut off at that point, in order. |
| Tokenizer.BlankLine | tsh.c:356-359 | A line of spaces yields no arguments and the return value 1. |
| Tokenizer.BackgroundMarker | tsh.c:358-366 | The result is 1 exactly when the line has no arguments or the last one starts with '&'. In the second case that argument is removed; otherwise all arguments stay and the result is 0. |
| Tokenizer.QuotedExample | tsh.c:328-332 | `echo 'a b' c` gives the arguments `echo`, `a b`, `c` in the foreground. |
| Tokenizer.BackgroundExample | tsh.c:361-366 | `sleep 5 &` gives `sleep`, `5` and the result 1. |
| Tokenizer.TabAndMarkerExample | tsh.c:335-362 | A tab does not separate arguments, and `&x` counts as the background marker. |
| Tokenizer.SkipBlanks | tsh.c:343-344 | The pointer loop over the buffer stops where SkipSpaces does. |
| Tokenizer.StrChr | tsh.c:331 | strchr over the NUL-terminated buffer gives Find's position, or NULL. |
| Tokenizer.NextArg | tsh.c:343-354 | The argument start and the delimiter (or NULL) are those of NextSpan. |
| Tokenizer.CopyLine | tsh.c:321-322 | After strcpy and the final-character write, the buffer holds the scanned line followed by NUL. |
| Tokenizer.SpansFromAfter | tsh.c:338-354 | The arguments from number n on are exactly those that scanning produces when it resumes just past the delimiter of argument n - 1. |
| Tokenizer.ScanArg | tsh.c:343-354 | Scanning from just past argument n - 1 finds argument n, or NULL once every argument has been found. |
| Tokenizer.StoreArg | tsh.c:340-342 | argv[argc] gets the argument's offset and its delimiter becomes NUL; the next scan starts just past it. The arguments already cut and the text not yet scanned are untouched. |
| Tokenizer.CutArgs | tsh.c:326-356 | The loop stores the offset of every argument in order, cuts each one out with a NUL, and leaves NULL after the last. |
| Tokenizer.SplitArgs | tsh.c:323-356 | argc is the number of arguments, and argv[t] is the offset of argument t. The string at that offset is the argument's text, and argv[argc] is NULL. |
| Tokenizer.ParseLine | tsh.c:312-367 | The return value is Parse's flag. argv holds, as NUL-terminated strings in the buffer, exactly Parse's arguments, followed by NULL. |
| JobSpec.ReapOne | tsh.c:396-407 | One turn of the reaping loop: the running slot becomes 0; the suspended slot takes the old running pid on a stop and is unchanged otherwise. |
| JobSpec.Sigchld | tsh.c:393-408 | Reaping only appends to the log and keeps the slots valid. |
| JobSpec.Notice | tsh.c:396-402 | The notice for one reaped child: exactly one for a killed or stopped child, none for a normal exit. |
| JobSpec.Notices | tsh.c:396-402 | At most one notice per reaped child. |
| JobSpec.SigchldClearsRunning | tsh.c:393-408 | After any reaped child, background ones included, the running slot is 0. With none reported, nothing changes. |
| JobSpec.SigchldSuspended | tsh.c:400-407 | If no child stopped, the suspended slot is unchanged. If the last stopped child is the first one reported, the slot gets the previously running pid (not the reaped pid, which may differ). If the last stop comes after another reaped child, the slot gets 0. |
| JobSpec.SigchldLog | tsh.c:396-402 | The log grows by one terminated or stopped notice per child killed or stopped, in waitpid's order, and by nothing for a normal exit. |
| JobSpec.SigchldOne | tsh.c:396-407 | Effects of one reported child by status: Signaled gives a terminated notice with the suspended slot unchanged. Stopped gives a stopped notice with suspended set to the old running pid. Exited gives no notice with suspended unchanged. Running is 0 in all three cases. |
| JobSpec.Relay | tsh.c:425-429 | The defining function of both relay handlers (sigtstp_handler at tsh.c:443-447 is the same with SIGTSTP). Neither slot changes and the log only grows; the kill itself is stated by RelayTarget. |
| JobSpec.RelayTarget | tsh.c:425-429 | Relaying a signal never changes the slots. It sends exactly kill(-running, signo) when running > 0, and nothing otherwise. |
| JobSpec.Deliver | tsh.c:382-450 | Every handler only appends to the log and keeps the slots valid. |
| JobSpec.Waitfg | tsh.c:297-300 | The wait ends exactly when the running slot is 0. If it has not ended, every signal was consumed. The log only grows and the slots stay valid. |
| JobSpec.WaitfgSuffix | tsh.c:297-300 | The signals left undelivered are a tail of the input: the wait consumes a prefix, in order. |
| JobSpec.WaitfgEndsOnReap | tsh.c:297-300 | A SIGCHLD that reports a child ends the wait at once; later signals stay undelivered. |
| JobSpec.WaitfgNeedsSigchld | tsh.c:297-300 | ctrl-c and ctrl-z alone never end the wait. |
| JobSpec.Builtin | tsh.c:245-266 | The defining function of builtin_cmd. There is no outcome (the C function returns 0) exactly when the command is neither quit nor fg. A blocked fg has used up every signal. |
| JobSpec.BuiltinNames | tsh.c:245-266 | Only `quit` and `fg` are built-ins. `quit` exits with 0 and changes nothing. |
| JobSpec.FgResumes | tsh.c:249-263 | With suspended > 0: running becomes the old suspended pid and suspended becomes 0. kill(-pid, SIGCONT) is logged before anything else, then the shell waits; it continues exactly when the running slot is 0 again. |
| JobSpec.FgWaits | tsh.c:252-260 | fg with a suspended job returns 1 with exactly the state, the left-over signals and the done flag of the wait that starts from the resumed job. |
| JobSpec.FgWithoutJob | tsh.c:252-263 | With no suspended job, fg changes nothing, sends nothing and returns. |
| JobSpec.SuspendByCtrlZ | tsh.c:393-447 | ctrl-z during a foreground wait sends SIGTSTP to the job's group. The stop notice is written, the pid moves to the suspended slot, and the wait ends. |
| JobSpec.ResumeWithFg | tsh.c:252-260 | fg on a suspended job that then exits sends SIGCONT to its group and waits. The first SIGCHLD ends the wait with both slots 0; the signals after it stay undelivered. |
| JobSpec.Launch | tsh.c:202-232 | The defining function of eval after the built-in check. Exit status -1 happens exactly when Fork failed. An exec happens only in a child whose execve succeeds, and it runs argv[0] with argv. |
| JobSpec.Evaluate | tsh.c:181-233 | The defining function of eval: nothing for a blank line, the built-in when there is one, and the launch otherwise. Only a child whose execve succeeds ends in an exec. |
| JobSpec.BlankLineIsNoOp | tsh.c:187-189 | eval on a line of spaces changes nothing and consumes no signal. |
| JobSpec.ForegroundWaits | tsh.c:202-228 | A foreground launch stores the child pid in the running slot, then waits. It returns to the read loop exactly when that slot is 0 again. |
| JobSpec.BackgroundLaunch | tsh.c:202-230 | A background launch still stores the pid in the running slot and prints the notice. A following ctrl-c is therefore sent to the background job's group. |
| JobSpec.ForkFailure | tsh.c:278-285 | A failed fork prints the error and exits with -1; the slots are unchanged. |
| JobSpec.ChildExec | tsh.c:205-220 | In the child the running slot is 0. A failed execve prints "Command not found" with the name and exits with 1; a successful one runs args[0] with the whole argument vector. |
| JobSpec.EvaluateValid | tsh.c:181-267 | eval keeps the slots valid: both non-negative, and never the same pid in both. This assumes the fork pid is positive and not the suspended one. |
| JobSpec.DeliverValid | tsh.c:383-450 | Every handler keeps the slots valid. |
| Tsh.JobControl.constructor | tsh.c:77-79 | Both slots start at 0 and nothing has been written. |
| Tsh.JobControl.SigchldHandler | tsh.c:383-414 | The reaping loop leaves the fields as Sigchld says, and errno as it found it, even when waitpid failed. |
| Tsh.JobControl.SigintHandler | tsh.c:422-432 | The fields become Relay(SIGINT) of the old state. |
| Tsh.JobControl.SigtstpHandler | tsh.c:440-450 | The fields become Relay(SIGTSTP) of the old state. |
| Tsh.JobControl.Handle | tsh.c:299 | A delivered signal runs its handler: the fields become Deliver of the old state. |
| Tsh.JobControl.WaitFg | tsh.c:294-301 | The sigsuspend loop ends in the state, the done flag and the left-over signals that Waitfg gives. errno is EINTR once a signal has been consumed, as sigsuspend always leaves it, and is unchanged otherwise. |
| Tsh.JobControl.BuiltinCmd | tsh.c:242-267 | Returns 0 with nothing changed exactly when the command is not a built-in. Otherwise it returns 1, and its effect and control are those of Builtin. |
| Tsh.JobControl.Eval | tsh.c:181-233 | Parsing through the buffer, the built-in check, the fork and the wait or notice leave the fields, the control and the left-over signals as Evaluate says. |
| Tsh.ArgVector | tsh.c:214 | The argument vector execve reads up to NULL is exactly the parsed arguments. |

## Left out

- The read loop in `main` (`fgets`, `feof`, the prompt, `fflush`, the `dup2` redirect) is left out. It is I/O around `eval`.
- Real system calls are not modelled: `fork`, `execve`, `setpgid`, `sigprocmask`, `sigsuspend`, `kill` and `waitpid`.
  - Their results are inputs: `ForkResult`, the reaped list and `PollEnd`, and the signal sequence.
  - Their effects are log entries.
  - The log records structured entries, not the printed text.
- True asynchrony is not modelled. Each handler runs as one atomic step, and signals arrive only while `waitfg` sleeps in `sigsuspend`.
  - The race that blocking SIGCHLD prevents is therefore out of scope.
  - So is a SIGCHLD that arrives between the unblock at tsh.c:224 and the background notice at tsh.c:230. There the C code could print 0 as the pid.
- `Signal`, `unix_error`, `app_error` and `sigquit_handler` are left out. They are wrappers around foreign calls that print and exit.
- `Tokenizer.ParseLine` takes a line that is non-empty, shorter than MAXLINE, free of NUL characters, and yields fewer than MAXARGS arguments, as preconditions. The C code does not check these limits, and an empty string would underflow `strlen(buf) - 1`.
- `Tsh.JobControl.SigchldHandler` takes the reaped children as a list of `waitpid` results followed by how the loop ended. The pids in that list are not constrained: the `> 0` test of the loop guard is stood for by the end marker. Status values other than exited, signaled and stopped are not modelled.
- `JobSpec.EvaluateValid` assumes the fork pid is not the suspended pid. This can fail in reality if that job was reaped while suspended and its pid was then reused.
- Fork failure exits with -1 (exit status 255), as the code does at tsh.c:284.
- errno: a failing `kill` (ESRCH) in the relay handlers and in fg, and failing `fork`, `setpgid`, `execve` or `sigprocmask` calls in eval, are not modelled. So `SigintHandler`, `SigtstpHandler`, `Handle`, `BuiltinCmd` and `Eval` promise nothing about errno. Only `SigchldHandler` (which restores it) and `WaitFg` (EINTR after each sigsuspend) state it.
- `exit` is modelled as the `Exit` control value returned to the caller. `BuiltinCmd` returns 1 alongside it for `quit`, although the C function never returns there.
- The `pid` argument of `waitfg` is ignored, as in the C code.
- The parseline code is split over several methods (`CopyLine`, `SkipBlanks`, `StrChr`, `NextArg`, `ScanArg`, `StoreArg`, `CutArgs`, `SplitArgs`). The scan that the C code writes out twice, before and inside the loop, is a single `NextArg`.
