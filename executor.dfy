/**
 * `exec_cmd` and `log_exec`: running a shell command and retrying it up to
 * three times, logging every attempt. The shell is an oracle that tells, for
 * each attempt, whether `popen` failed or what the command printed and the
 * status `pclose` returned; the clock is an oracle that gives the text of the
 * k-th `get_time` call.
 */
module Executor {
  import opened Text

  /** `MAX_RETRY`: the number of attempts `log_exec` makes at most. */
  const MaxRetry: nat := 3

  /** What one attempt at running a command gives back. */
  datatype ShellRun =
    | PopenFailed                            // `popen` returned no stream
    | Closed(output: string, status: int)    // everything read, and the status from `pclose`

  /** The output and exit code `exec_cmd` hands to its caller. */
  datatype Captured = Captured(output: string, code: int)

  /**
   * `WIFEXITED` and `WEXITSTATUS` for the usual wait-status layout (exit code
   * in bits 8-15, terminating signal in bits 0-6). On a 32-bit two's-complement
   * status, `s & 0x7f` is `s % 128` and `(s >> 8) & 0xff` is `(s / 256) % 256`
   * with Dafny's Euclidean operators.
   */
  predicate ExitedNormally(status: int) {
    status % 128 == 0
  }

  function ExitCodeOf(status: int): (r: int)
    ensures 0 <= r < 256
  {
    (status / 256) % 256
  }

  /** The status a process that called `exit(code)` leaves behind. */
  function ExitStatus(code: int): int {
    code * 256
  }

  /**
   * `exec_cmd`: a failed `popen` yields the sentinel output "popen failed"
   * with code -1; otherwise the trimmed output, and the exit code when the
   * command exited normally or the raw status when it did not.
   */
  function ExecCmd(run: ShellRun): (r: Captured)
    ensures r.code == 0 ==> run.Closed?
    ensures run.Closed? && !ExitedNormally(run.status) ==> r.code != 0
  {
    match run
    case PopenFailed => Captured("popen failed", -1)
    case Closed(output, status) =>
      Captured(Trim(output), if ExitedNormally(status) then ExitCodeOf(status) else status)
  }

  /** What `exec_cmd` returns never has blanks at either end, the sentinel included. */
  lemma OutputTrimmed(run: ShellRun)
    ensures Trim(ExecCmd(run).output) == ExecCmd(run).output
  {
    match run
    case PopenFailed =>
      TrimUnique("popen failed", 0, 12);
      assert "popen failed"[0..12] == "popen failed";
    case Closed(output, _) =>
      TrimIdempotent(output);
  }

  /** An attempt succeeds when `exec_cmd` reports exit code 0. */
  predicate Succeeds(run: ShellRun) {
    ExecCmd(run).code == 0
  }

  /** A command that called `exit(code)` is reported with exactly that code and its trimmed output. */
  lemma NormalExit(output: string, code: int)
    requires 0 <= code < 256
    ensures ExecCmd(Closed(output, ExitStatus(code))) == Captured(Trim(output), code)
  {
  }

  /** A command that exited normally is reported with a code between 0 and 255. */
  lemma ExitCodeIsByte(output: string, status: int)
    requires ExitedNormally(status)
    ensures 0 <= ExecCmd(Closed(output, status)).code < 256
  {
  }

  /** A command killed by a signal keeps its raw, non-zero status, so the attempt fails. */
  lemma KilledBySignal(output: string, signal: int, coreDumped: bool)
    requires 1 <= signal < 127
    ensures ExecCmd(Closed(output, signal + if coreDumped then 128 else 0)).code
            == signal + (if coreDumped then 128 else 0)
    ensures !Succeeds(Closed(output, signal + if coreDumped then 128 else 0))
  {
  }

  /** A failed `popen` never counts as success. */
  lemma PopenFailureFails()
    ensures !Succeeds(PopenFailed)
  {
  }

  /** The fixed texts `log_exec` writes. */
  const RunningPrefix: string := "正在执行: "
  const OutputPrefix: string := "命令输出: "
  const SuccessText: string := "执行成功"
  const FailureText: string := "执行失败"

  /** A log line: the `get_time` text in brackets, then the message. */
  function Stamped(time: string, msg: string): string {
    "[" + time + "] " + msg
  }

  /** The output lines of the first `n` attempts; attempt i is stamped by the (i+1)-th clock reading. */
  function AttemptLines(shell: nat -> ShellRun, clock: nat -> string, n: nat): seq<string> {
    if n == 0 then []
    else AttemptLines(shell, clock, n - 1) + [Stamped(clock(n), OutputPrefix + ExecCmd(shell(n - 1)).output)]
  }

  /** One output line per attempt, in order, each carrying that attempt's captured output. */
  lemma {:induction false} AttemptLinesShape(shell: nat -> ShellRun, clock: nat -> string, n: nat)
    ensures |AttemptLines(shell, clock, n)| == n
    ensures forall i :: 0 <= i < n ==>
              AttemptLines(shell, clock, n)[i] == Stamped(clock(i + 1), OutputPrefix + ExecCmd(shell(i)).output)
  {
    if n > 0 {
      AttemptLinesShape(shell, clock, n - 1);
      var prev := AttemptLines(shell, clock, n - 1);
      assert AttemptLines(shell, clock, n) == prev + [Stamped(clock(n), OutputPrefix + ExecCmd(shell(n - 1)).output)];
    }
  }

  /** None of the first `n` attempts succeeds. */
  predicate FailsUpTo(shell: nat -> ShellRun, n: nat) {
    n == 0 || (FailsUpTo(shell, n - 1) && !Succeeds(shell(n - 1)))
  }

  /** The recursive reading of "none of the first `n` attempts succeeds" is the quantified one. */
  lemma {:induction false} FailsUpToAll(shell: nat -> ShellRun, n: nat)
    ensures FailsUpTo(shell, n) <==> forall i :: 0 <= i < n ==> !Succeeds(shell(i))
  {
    if n > 0 {
      FailsUpToAll(shell, n - 1);
    }
  }

  /** Attempt `k` is the first to succeed. */
  lemma FirstSuccessAt(shell: nat -> ShellRun, k: nat)
    requires k < MaxRetry && FailsUpTo(shell, k) && Succeeds(shell(k))
    ensures exists i :: 0 <= i < MaxRetry && Succeeds(shell(i))
    ensures forall i :: 0 <= i < k ==> !Succeeds(shell(i))
  {
    FailsUpToAll(shell, k);
  }

  /** Every attempt fails. */
  lemma NoSuccess(shell: nat -> ShellRun)
    requires FailsUpTo(shell, MaxRetry)
    ensures !exists i :: 0 <= i < MaxRetry && Succeeds(shell(i))
    ensures forall i :: 0 <= i < MaxRetry - 1 ==> !Succeeds(shell(i))
  {
    FailsUpToAll(shell, MaxRetry);
  }

  /**
   * `log_exec`: logs the description, then runs the command up to `MaxRetry`
   * times, logging each output, sleeping one second after each failure, and
   * stops at the first exit code 0; it ends with one success or failure line.
   * `slept` counts the one-second sleeps.
   */
  method LogExec(desc: string, shell: nat -> ShellRun, clock: nat -> string, log: seq<string>)
    returns (ok: bool, attempts: nat, slept: nat, newLog: seq<string>)
    ensures ok <==> exists i :: 0 <= i < MaxRetry && Succeeds(shell(i))
    ensures 1 <= attempts <= MaxRetry
    ensures forall i :: 0 <= i < attempts - 1 ==> !Succeeds(shell(i))
    ensures ok ==> Succeeds(shell(attempts - 1))
    ensures !ok ==> attempts == MaxRetry
    ensures slept == if ok then attempts - 1 else attempts
    ensures newLog == log + [Stamped(clock(0), RunningPrefix + desc)]
                          + AttemptLines(shell, clock, attempts)
                          + [Stamped(clock(attempts + 1), if ok then SuccessText else FailureText)]
  {
    var start := Stamped(clock(0), RunningPrefix + desc);
    newLog := log + [start];
    var retry := 0;
    slept := 0;
    while retry < MaxRetry
      invariant 0 <= retry <= MaxRetry
      invariant FailsUpTo(shell, retry)
      invariant slept == retry
      invariant newLog == log + [start] + AttemptLines(shell, clock, retry)
    {
      var result := ExecCmd(shell(retry));
      var line := Stamped(clock(retry + 1), OutputPrefix + result.output);
      assert newLog + [line] == log + [start] + AttemptLines(shell, clock, retry + 1);
      newLog := newLog + [line];
      if result.code == 0 {
        FirstSuccessAt(shell, retry);
        newLog := newLog + [Stamped(clock(retry + 2), SuccessText)];
        return true, retry + 1, slept, newLog;
      }
      retry := retry + 1;
      slept := slept + 1;
    }
    NoSuccess(shell);
    newLog := newLog + [Stamped(clock(retry + 1), FailureText)];
    return false, retry, slept, newLog;
  }
}
