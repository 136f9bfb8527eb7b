# linkline server: the password-gated session, in Dafny

`linkline_server` accepts TCP connections and forks a child for each one.
The child writes the prompt `Password: ` and reads at most 128 bytes
(`MAX_PASS_LEN`) into a buffer of 129. It then replaces one trailing `'\n'`
or `'\r'` with NUL; when the last byte is not a terminator, it writes the NUL
just after the data. Next it compares the buffer with the configured
password using `strcmp`. The child ends one of three ways:
- no password (read error or end of stream): close and exit;
- access denied: write `\nAccess denied.\n`, log, close and exit;
- launch: log, put the connection on stdin, stdout and stderr with `dup2`, and `execl` `/bin/sh`.

At startup the server converts the port argument with `atoi` and rejects
any value outside 1..65535.

The project has three modules:

- `CStrings` (`cstrings.dfy`) covers the C library's view of a byte buffer:
  - `CStr` gives the bytes before the first NUL;
  - `StrCmp` is `strcmp` (section 7.24.4.2 of C11), and is zero exactly when
    the two C strings are equal.
- `Atoi` (`atoi.dfy`) covers the port check:
  - `Atoi` is `atoi` (section 7.22.1.2 of C11) as the GNU C library
    computes it: `(int) strtol(s, NULL, 10)`, with a 64-bit `long`;
  - `ValidatePort` is the check as written;
  - `ValidatePortStrict` is the check as evidently intended (see Findings).
- `LinklineServer` (`linkline_server.dfy`) covers the child's session:
  - `ReadResult` is the read, which never delivers more than 128 bytes;
  - the `Read` and `Terminate` methods work in place on a 129-cell `array`, and
    `Terminated` is the function that specifies the terminate step;
  - `SessionOutcome` picks one of the three outcomes;
  - the `Session` class holds the state machine Awaiting-Password →
    Authenticated → Shell-Running → Closed. It also records the bytes
    written to the client, the log entries, and whether the connection is
    open, redirected onto stdio, or the process exited with `EXIT_FAILURE`.

The contents of `pass_buf` before the read are indeterminate in C. The model
takes them as a parameter (`stack`), and `TerminatedCStr` proves they never
affect the comparison.

Three facts about the code that the model makes explicit:
- The write `pass_buf[n]` at `n == 128` is in bounds, because the buffer is
  declared `MAX_PASS_LEN + 1` long. `TerminatorIndex` proves every written
  index is below 129.
- The child logs nothing when `execl` succeeds. The final "has exited" line
  comes from the parent, and the parent is not modelled.
- When `execl` fails, the connection is already on stderr, so the
  `perror("execl")` line (the call's name and the `errno` text) goes to the
  client. That sends internal error detail over the wire. `Session.Launch`
  records this line in what the client receives.
- The listening line that `printf` writes at line 134 is never flushed
  before the first `fork`. When the server's stdout is a file or a pipe,
  every child inherits it in its stdout buffer, and `exit` flushes it. On
  the no-password and denial paths that goes to the server's own stdout,
  so the line repeats there once per such connection. On an `execl` failure,
  stdout is already the connection, so the client receives the line after
  the `perror` line. `Session` takes this buffer as `pendingOut` (empty
  when stdout is a terminal, because a terminal is line buffered).

## Model

| member | source | states |
|---|---|---|
| `CStrings.CStr` | system/linkline_server.c:189 | the C string of a buffer is the prefix before its first NUL: it is a prefix, holds no NUL, and is followed by a NUL unless it is the whole buffer |
| `CStrings.StrCmp` | system/linkline_server.c:189 | `strcmp` is zero exactly when the two C strings are equal; its value lies in -255..255 |
| `CStrings.CStrUnique` | system/linkline_server.c:189 | any NUL-free prefix followed by a NUL (or the end) is the buffer's C string |
| `CStrings.CStrStopsAtNul` | system/linkline_server.c:183-189 | a NUL at index k hides every byte from k on; the C string is at most k long |
| `CStrings.CStrOfNulFree` | system/linkline_server.c:70 | a NUL-free byte string (an `argv` entry) is its own C string |
| `CStrings.CStrEmbeddedNul` | system/linkline_server.c:189 | bytes after an embedded NUL are never compared |
| `CStrings.StrCmpIgnoresTail` | system/linkline_server.c:186-189 | whether `strcmp` returns zero depends only on the buffer up to its first NUL |
| `Atoi.SkipSpace` | system/linkline_server.c:69 | the white space `atoi` skips is a prefix of spaces, and what follows starts with a non-space |
| `Atoi.DigitRun` | system/linkline_server.c:69 | the digits `atoi` reads are the longest all-digit prefix |
| `Atoi.DecimalValueZero` | system/linkline_server.c:69-72 | a digit run denotes 0 exactly when all of its digits are `'0'` |
| `Atoi.AfterSign` | system/linkline_server.c:69 | one leading `'-'` or `'+'` is dropped and nothing else; without one the text is unchanged |
| `Atoi.Digits` | system/linkline_server.c:69 | the digits the conversion reads are the longest digit run after the white space and the optional sign: a prefix of what follows the sign, followed by a non-digit or the end |
| `Atoi.ParsedValue` | system/linkline_server.c:69 | the parsed number is zero exactly when every digit read is `'0'` (or none is), and it is negative only under a minus sign |
| `Atoi.SignedDigits` | system/linkline_server.c:69 | after white space, an optional sign, a digit string and a non-digit, the parse reads exactly that digit string, and is negative exactly under `'-'` |
| `Atoi.ParseRoundTrip` | system/linkline_server.c:69 | white space, an optional sign, the numeral of `p` and any text not starting with a digit parse back to `p`, or to `-p` under a minus sign |
| `Atoi.Strtol` | system/linkline_server.c:69 | `strtol` returns the parsed value when it fits in a 64-bit `long`, and is clamped to `LONG_MAX`/`LONG_MIN` otherwise |
| `Atoi.WrapInt` | system/linkline_server.c:69 | converting to a 32-bit `int` gives the value congruent modulo 2^32, and leaves in-range values alone |
| `Atoi.Atoi` | system/linkline_server.c:69 | `atoi` is a 32-bit value, and equals the parsed number whenever that number fits in an `int` |
| `Atoi.ValidatePort` | system/linkline_server.c:69-75 | the port is accepted exactly when `atoi` of the argument lies in 1..65535, and the accepted port is that value |
| `Atoi.ValidatePortStrict` | system/linkline_server.c:69-75 | corrected check: accepted exactly when the written number lies in 1..65535 |
| `Atoi.ZeroRejected` | system/linkline_server.c:69-75 | an argument with no digits or only zeros converts to 0, and both checks reject it |
| `Atoi.StrictAgreesWhenRepresentable` | system/linkline_server.c:69-75 | whenever the written number fits in an `int`, the two checks give the same verdict |
| `Atoi.DigitChar` | system/linkline_server.c:69 | the digit character for 0..9 is a decimal digit denoting that number |
| `Atoi.ToDecimal` | system/linkline_server.c:69 | the decimal numeral of a number is a non-empty digit string with no leading zero |
| `Atoi.DecimalRoundTrip` | system/linkline_server.c:69 | reading back the decimal numeral of `p` gives `p` |
| `Atoi.PortRoundTrip` | system/linkline_server.c:69-75 | the decimal numeral of any `p` in 1..65535 is accepted as port `p`, by both checks |
| `Atoi.BigValue` | system/linkline_server.c:69 | the digits `4294969619` denote 4294969619 |
| `Atoi.BigParsed` | system/linkline_server.c:69 | `4294969619` parses to 4294969619: no white space, no sign |
| `Atoi.BigWrap` | system/linkline_server.c:69 | the `int` conversion of 2^32 + 2323 is 2323 |
| `Atoi.WrappedPortAccepted` | system/linkline_server.c:69-75 | as written, the argument `4294969619` is accepted as port 2323; the strict check rejects it |
| `LinklineServer.Bytes` | system/linkline_server.c:167-168 | a one-byte-per-character text becomes the byte string of the same length and codes |
| `LinklineServer.PerrorLine` | system/linkline_server.c:216 | the `perror("execl")` line is `execl: `, then the error text, then a newline |
| `LinklineServer.Count` | system/linkline_server.c:172-173 | the read's return value is at most 128, and is `<= 0` exactly for an error or end of stream |
| `LinklineServer.ReadAvailable` | system/linkline_server.c:172 | a read where `pending` bytes are waiting delivers a prefix of them: all of them, or 128 when more are waiting |
| `LinklineServer.Read` | system/linkline_server.c:171-172 | the read puts the delivered bytes at the front of `pass_buf` and leaves every other cell as it was |
| `LinklineServer.TerminatorIndex` | system/linkline_server.c:171-186 | the cell the terminate step writes is `n-1` exactly when byte `n-1` is `'\n'` or `'\r'`, else `n`; it is always inside the 129-cell buffer, also when `n == 128` |
| `LinklineServer.Terminated` | system/linkline_server.c:183-186 | the terminate step sets exactly one cell to NUL and leaves every other cell unchanged |
| `LinklineServer.Terminate` | system/linkline_server.c:183-186 | the in-place step on the array leaves exactly the contents `Terminated` describes |
| `LinklineServer.Normalize` | system/linkline_server.c:180-186 | the attempt the comparison sees is a prefix of the bytes read: one byte shorter exactly when the last byte is `'\n'` or `'\r'`, else all of them |
| `LinklineServer.OnlyOneTerminatorStripped` | system/linkline_server.c:180-184 | one terminator is removed and a second one before it stays (`"\r\n"` leaves `"\r"`) |
| `LinklineServer.TerminatedCStr` | system/linkline_server.c:171-189 | after the read and the terminate step, the buffer's C string is that of the normalized attempt, whatever the buffer held before |
| `LinklineServer.SessionOutcome` | system/linkline_server.c:172-212 | no password exactly when the read returns `n <= 0`; shell exactly when the normalized attempt and the password are equal C strings; denial exactly when they differ |
| `LinklineServer.CompareDecides` | system/linkline_server.c:183-199 | the `strcmp` on the terminated buffer takes the denial branch or the shell branch exactly as `SessionOutcome` says |
| `LinklineServer.CheckPassword` | system/linkline_server.c:171-199 | the read into a 129-cell array, the in-place terminate and the `strcmp` choose exactly the branch `SessionOutcome` gives, for any earlier buffer contents |
| `LinklineServer.TerminatedAttemptMatches` | system/linkline_server.c:180-189 | a password sent with one `'\n'` or `'\r'` after it matches |
| `LinklineServer.CrLfAttemptDenied` | system/linkline_server.c:180-189 | a password sent with `"\r\n"` is denied |
| `LinklineServer.EmbeddedNulAttemptMatches` | system/linkline_server.c:189 | a password sent with a NUL and any bytes after it matches |
| `LinklineServer.LongPasswordNeverMatches` | system/linkline_server.c:172-189 | if the configured password is longer than 128 bytes, no read result can ever launch the shell |
| `LinklineServer.FullLengthAttemptMatches` | system/linkline_server.c:172-189 | a 128-byte password sent with its newline matches: the read stops before the newline and the attempt is compared as it is |
| `LinklineServer.TruncatedAttempt` | system/linkline_server.c:172 | bytes sent after the first 128 never change the outcome |
| `LinklineServer.Secret` | system/linkline_server.c:13 | the example password `secret123` is a NUL-free string of 9 bytes |
| `LinklineServer.SecretWithNewlineMatches` | system/linkline_server.c:180-204 | with the password `secret123`, `"secret123\n"` launches the shell |
| `LinklineServer.SecretWithCrLfDenied` | system/linkline_server.c:180-199 | `"secret123\r\n"` is denied |
| `LinklineServer.SecretWithEmbeddedNulMatches` | system/linkline_server.c:189-204 | `"secret123\0junk"` launches the shell |
| `LinklineServer.WrongAttemptDenied` | system/linkline_server.c:189-199 | `"wrong\n"` is denied |
| `LinklineServer.NoWayBack` | system/linkline_server.c:166-219 | along any run of session transitions the states strictly advance: none repeats, and a run has at most four states |
| `LinklineServer.RankGrows` | system/linkline_server.c:166-219 | each transition moves a session at least one state further along |
| `LinklineServer.Session.constructor` | system/linkline_server.c:134-164 | a new child is awaiting the password, with nothing written or logged, the connection open, and the parent's unflushed stdout bytes in its buffer |
| `LinklineServer.Session.Challenge` | system/linkline_server.c:166-204 | prompt, read, terminate, compare: outcome and new state agree with `SessionOutcome`. No password: prompt only, one log entry, closed, failure exit. Denial: prompt and denial message, one log entry, closed, failure exit. Match: the success entry is logged and the session is Authenticated. No redirect happens on any path. Each failure exit flushes the inherited stdout buffer to the server's own stdout |
| `LinklineServer.Session.Launch` | system/linkline_server.c:202-219 | only an Authenticated session reaches `dup2`/`execl`, and its success entry is already logged. If the exec succeeds, the session is Shell-Running and nothing more is written. If it fails: the failure is logged, the client receives the `perror` line and then the inherited stdout buffer flushed by `exit`, the connection closes and the process exits with failure |
| `LinklineServer.Session.ShellExited` | system/linkline_server.c:212 | when the shell exits, the session is Closed, with nothing further written or logged |

## Left out

- Socket creation, `setsockopt`, `inet_pton`, `bind`, `listen` and `accept` (lines 86-146) are left out: operating-system network plumbing.
- The argument-count check (lines 62-66) is left out: command-line handling.
- `fork` and the parent's `waitpid` bookkeeping (lines 154-160 and 221-231) are left out: process concurrency. The shell's exit is the single event `ShellExited`.
- `log_message` (lines 43-59) is left out: it depends on the clock, `strftime` and file I/O. A log line is an abstract `LogEntry` with no timestamp, pid or peer address. The parent's log lines are not modelled.
- `dup2` and `execl` are modelled as a `redirected` flag and an `execOk` parameter, because replacing the process image is outside Dafny. The `errno` text `perror` prints is the parameter `errText`.
- The inherited stdout buffer is the parameter `pendingOut`. Whether stdout is a terminal, and the formatted text of the listening line, are decided outside the model. So is a buffer that fills and flushes before `exit`.
- The bytes the client sends are a parameter (`ReadResult`). `ReadAvailable` models only a read that takes everything waiting, up to 128 bytes. A shorter read is any `Received` value.
- `system/linkline_client.c` is not part of this model: it only relays bytes between the terminal and the socket.
- `CStrings.StrCmp`: states only when the result is zero, plus a bound. The sign ordering from C11 is not stated, because the server only tests `!= 0`.
- `Atoi.Atoi`: this is the GNU C library's behaviour (64-bit `long`, wrap-around cast). C11 leaves out-of-range values undefined.

## Findings

| source | as written | input that shows it | evidently intended | confidence | as-written member | corrected member |
|---|---|---|---|---|---|---|
| system/linkline_server.c:69-75 | the range check is applied to `atoi`'s 32-bit result. With glibc that result is `(int) strtol(...)`, so a number above the `int` range is first wrapped modulo 2^32 | argument `4294969619` (2^32 + 2323) passes the check as port 2323 | reject any argument whose written number is outside 1..65535 | medium (relies on glibc with a 64-bit `long`); not executed | `Atoi.WrappedPortAccepted` | `Atoi.ValidatePortStrict` |
