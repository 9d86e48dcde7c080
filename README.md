# battery-modify-c: configuration loading and command retry

A Dafny model of the logic in `main.cpp` of the battery calibration daemon:

- **`trim`** (module `Text`): removes space, tab, carriage return and line feed
  from both ends of a string, via `find_first_not_of` / `find_last_not_of`.
- **`load_config`** (modules `ConfigFile` and `Stoi`): reads `KEY = value`
  lines into the `Config` record whose defaults are
  `ENABLE_MONITOR = true`, `ENABLE_TEMP_COMP = true`, `long_sleep = 2`,
  `discharge_threshold = 15`. Each line is trimmed. It is skipped when empty,
  when it starts with `#`, or when it has no `=`. Otherwise it is split at its
  first `=`, and key and value are trimmed. The two switches become true only
  for `"true"` or `"1"`. The two numbers go through `std::stoi`. The file is
  given as `Option<seq<string>>`: `None` means it could not be opened, and the
  record is then left as it was. `LoadConfig` is the `while (getline)` loop;
  `Fold` is the same reading written as a function over the lines, and it is
  what the lemmas are about.
- **`exec_cmd` / `log_exec`** (module `Executor`): the shell is an oracle
  `shell: nat -> ShellRun`. For attempt `i` it says either that `popen`
  failed, or what the command printed and the status `pclose` returned.
  `exec_cmd` maps a failed `popen` to output `"popen failed"` with code -1.
  Otherwise it returns the trimmed output, and the code decoded with
  `WIFEXITED`/`WEXITSTATUS` (the raw status when the command did not exit
  normally). `log_exec` makes at most `MAX_RETRY = 3` attempts and stops at the
  first exit code 0. The log file is a `seq<string>` that it appends to:
  one "正在执行" message, one "命令输出" message per attempt (a message may
  span several lines when the command printed several), then one "执行成功"
  or "执行失败" message. The clock is an oracle `clock: nat -> string` giving the
  text of the k-th `get_time` call. The one-second sleeps are counted.

`std::stoi` is modelled as `strtol` in base 10 in the C locale followed by the
range check to a 32-bit `int`. It skips leading white space
(`" \t\n\v\f\r"`), reads an optional sign and the longest run of digits, and
ignores what follows. No digit gives `InvalidArgument`; a value outside
`[-2^31, 2^31-1]` gives `OutOfRange`. An exception ends the load: `LoadConfig`
then returns `Err`, because nothing in `main` catches it and the process stops.

Two facts about the code that the model keeps:

- `log_exec` sleeps one second after EVERY failed attempt, the third included,
  so three failures cost three seconds of sleep, not two
  (`main.cpp:102-103`; see `Executor.LogExec`, whose `slept` equals the number
  of failed attempts).
- The log is only ever appended to (`main.cpp:88-91`); there is no rotation in
  this revision.

## Model

| member | source | states |
|---|---|---|
| `Text.Trim` | main.cpp:33-38 | the result is no longer than the input and is empty or starts and ends with a character other than space, tab, CR, LF |
| `Text.FindFirstNotBlank` | main.cpp:34 | returns the first non-blank index at or after `from`, with only blanks before it; `None` (npos) exactly when everything from `from` on is blank |
| `Text.FindLastNotBlank` | main.cpp:36 | returns the last non-blank index below `end`, with only blanks after it; `None` exactly when everything below `end` is blank |
| `Text.Find` | main.cpp:48 | returns the first index holding the character, which does not occur before it; `None` exactly when the character does not occur |
| `Text.TrimIsSlice` | main.cpp:33-37 | `trim(s)` is a contiguous slice `s[i..j]` with only blanks in `s[..i]` and in `s[j..]` |
| `Text.TrimUnique` | main.cpp:33-37 | any slice surrounded only by blanks whose own ends are not blank is `trim(s)`: an independent description of trim |
| `Text.TrimEmptyIff` | main.cpp:34-35 | `trim(s)` is empty if and only if `s` holds only blanks (or is empty) |
| `Text.TrimIdempotent` | main.cpp:33-38 | `trim(trim(s)) == trim(s)` |
| `Stoi.SkipSpaces` | main.cpp:55 | stops at the first character that is not C `isspace`, having passed only white space |
| `Stoi.DigitEnd` | main.cpp:55 | stops at the end of the run of digits, having passed only digits |
| `Stoi.DigitsValue` | main.cpp:55-56 | the value of a run of `n` decimal digits is below `10^n`; `Stoi.ParseDecimal` shows it is the inverse of writing a number in decimal |
| `Stoi.Parse` | main.cpp:55-56 | `std::stoi`: a successful result always fits a 32-bit `int`; `Stoi.ParseInvalidIff`, `Stoi.ParseNumber` and `Stoi.ParseSkipsLeadingSpace` characterise it on all inputs |
| `Stoi.ParseDigits` | main.cpp:55-56 | the digit run after the sign; a successful result always fits a 32-bit `int`; `Stoi.ParseNumber` gives its value |
| `Stoi.ParseNumber` | main.cpp:55-56 | an optional `-` or `+`, a digit run and anything not starting with a digit parse to the signed value of the digits, range-checked; a `+` leaves the value positive |
| `Stoi.ParseInvalidIff` | main.cpp:55-56 | `invalid_argument` is thrown if and only if no digit follows the leading white space and the optional sign |
| `Stoi.SignedValue` | main.cpp:55-56 | the range check: a successful result always fits a 32-bit `int` |
| `Stoi.ParseDecimal` | main.cpp:55-56 | round trip: the decimal text of any 32-bit value, followed by anything that is not a digit, parses to that value |
| `Stoi.ParseDecimalOutOfRange` | main.cpp:55-56 | the decimal text of a value outside 32 bits gives `out_of_range`, never a truncated value |
| `Stoi.ParseSkipsLeadingSpace` | main.cpp:55-56 | leading white space never changes the result |
| `ConfigFile.ParseLine` | main.cpp:46-51 | trim, skip, split: a line that is kept yields a key without `=`, and key and value with no blanks at either end; `ConfigFile.IgnoredLine` and `ConfigFile.SplitAtFirstEquals` say exactly when each case happens |
| `ConfigFile.Apply` | main.cpp:53-56 | the key dispatch: only `long_sleep` and `discharge_threshold` can throw, and every other key's field is left as it was; `ConfigFile.ApplyEffect` and `ConfigFile.SwitchValue` give the field that changes |
| `ConfigFile.Step` | main.cpp:45-57 | one loop iteration: only a line that assigns one of the two numbers can throw, and every field the line does not assign is kept |
| `ConfigFile.Fold` | main.cpp:45-58 | the whole loop as a function: it can only fail at a line that assigns one of the two numbers; `ConfigFile.FoldAppend`, `ConfigFile.OnlyIgnoredLines`, `ConfigFile.Untouched` and `ConfigFile.LastAssignmentWins` characterise it |
| `ConfigFile.ReadLine` | main.cpp:46-57 | the body of the `while (getline)` loop, written as statements with early returns, computes exactly `ConfigFile.Step` |
| `ConfigFile.LoadConfig` | main.cpp:41-59 | an unopenable file leaves the starting record (in `main`, the defaults true, true, 2, 15) unchanged; otherwise the loop, whose body is `ConfigFile.ReadLine`, gives the fold of the per-line step over all lines, stopping at the first `std::stoi` exception |
| `ConfigFile.Lookup` | main.cpp:25-56 | a specification view of the fields of `Config` that the dispatch at lines 53-56 writes: a key names a field exactly when it is one of the four recognised keys |
| `ConfigFile.IgnoredLine` | main.cpp:46-49 | a line is skipped if and only if, once trimmed, it is empty, starts with `#`, or has no `=`; a skipped line leaves the record unchanged |
| `ConfigFile.SplitAtFirstEquals` | main.cpp:48-51 | a trimmed line `key=value` with no `=` in `key` is split there, so the value may contain `=`; key and value are trimmed separately |
| `ConfigFile.ApplyEffect` | main.cpp:53-57 | an unrecognised key changes nothing; a recognised key sets its own field to the value it interprets to and leaves every other field; a rejected number aborts with the `std::stoi` error |
| `ConfigFile.SwitchValue` | main.cpp:53-54 | a switch line always succeeds and sets its field to true for `"true"` or `"1"` and to false for any other value |
| `ConfigFile.FoldAppend` | main.cpp:45-58 | reading `a + b` is reading `a` and then, unless it threw, reading `b` |
| `ConfigFile.OnlyIgnoredLines` | main.cpp:45-49 | a file of only skipped lines (blank, comment, no `=`) yields the starting record |
| `ConfigFile.Untouched` | main.cpp:45-57 | a field that no line assigns to keeps its starting value |
| `ConfigFile.LastAssignmentWins` | main.cpp:45-57 | when the load succeeds, the last line that assigns a key decides its field |
| `Executor.ExitCodeOf` | main.cpp:73 | `WEXITSTATUS`: the exit code is always between 0 and 255 |
| `Executor.ExecCmd` | main.cpp:65-75 | `exec_cmd`: code 0 needs a `popen` that worked, and a command that did not exit normally never reports 0; `Executor.OutputTrimmed`, `Executor.NormalExit`, `Executor.ExitCodeIsByte`, `Executor.KilledBySignal` and `Executor.PopenFailureFails` characterise it |
| `Executor.ExitCodeIsByte` | main.cpp:72-73 | a command that exited normally (`WIFEXITED`) is reported with a code between 0 and 255 |
| `Executor.OutputTrimmed` | main.cpp:70-74 | the output `exec_cmd` returns, the "popen failed" sentinel included, has no blanks at either end |
| `Executor.NormalExit` | main.cpp:72-74 | a command that exited with code 0..255 is reported with exactly that code and its trimmed output |
| `Executor.KilledBySignal` | main.cpp:72-73 | a command killed by a signal is reported with its raw, non-zero status, so the attempt counts as failed |
| `Executor.PopenFailureFails` | main.cpp:70 | a failed `popen` (code -1) never counts as success |
| `Executor.AttemptLinesShape` | main.cpp:99-100 | n attempts give n output lines in order, line i carrying attempt i's captured output and the (i+1)-th timestamp |
| `Executor.FailsUpToAll` | main.cpp:97-102 | "no attempt so far succeeded", the fact the retry loop keeps, read recursively is the same as read over all earlier attempts |
| `Executor.LogExec` | main.cpp:94-107 | returns true iff one of the first 3 attempts exits with 0; makes k+1 attempts when the first success is attempt k, else exactly 3; sleeps once per failed attempt; appends exactly the start message, one output message per attempt and one success or failure message |

## Left out

- `log_msg` is modelled only as appending a message to the log sequence; a log file that cannot be opened (the message is then dropped) and the newline written after each message are not modelled. A message is one element of the sequence even when it holds newlines of its own (a command output of several lines, or the `"\n[第三步] ..."` step headers of `main`), so the sequence counts messages, not lines of the file.
- `get_time` depends on the clock and `localtime`; its text is an oracle input.
- `popen`, the `fgets` read loop and `pclose` are foreign OS calls; the oracle gives the whole output and the raw status of each attempt.
- The status decoding assumes the usual wait-status layout (exit code in bits 8-15, signal in bits 0-6) and a 32-bit status.
- File reading in `load_config` and `file_exists`/`access` are replaced by the optional sequence of lines; how `getline` splits a file into lines is not modelled.
- `std::stoi` is modelled for the C locale only; locale-specific white space or digits are not.
- `LoadConfig` returns `Err` on a `std::stoi` exception; the fields already updated at that point are not returned, since the exception ends the process.
- `sleep_for`, `daemon(0, 0)` and `getuid` are process and timing plumbing; the sleeps of `log_exec` are only counted.
- `monitor_voltage` only sleeps in an endless loop in this revision; there is no battery logic in it to model.
- The startup sequence of `main` is a script with no logic beyond the configuration flags: the privilege check; the temperature-compensation `log_exec` call, which only `ENABLE_TEMP_COMP` guards (`main.cpp:139-143`); the voltage-compensation and age-factor `log_exec` calls, which always run (`main.cpp:144-145`); and `daemon` followed by `monitor_voltage`, which only `ENABLE_MONITOR` guards (`main.cpp:150-159`).
- `cancel_countdown`, `wait_for_batterystats`, `handle_counter`, the battery state machine, the counter files and log rotation are not part of this revision of `main.cpp`, so they are not part of this model.
