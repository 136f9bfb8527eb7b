/**
  The per-connection session of `linkline_server`: in the child process
  the server writes a prompt, reads at most `MAX_PASS_LEN` bytes into a
  buffer of `MAX_PASS_LEN + 1`, replaces one trailing line terminator (or
  the byte after the data) by NUL, compares the resulting C string with the
  configured password, and then either closes the connection or redirects
  its standard streams onto the connection and runs `/bin/sh`.
 */
module LinklineServer {
  import opened CStrings

  const MAX_PASS_LEN: nat := 128
  /** The declared size of `pass_buf`. */
  const BUF_LEN: nat := MAX_PASS_LEN + 1

  const LF: byte := 10
  const CR: byte := 13

  /** The bytes of a text whose characters all fit in one byte. */
  function Bytes(s: string): (r: seq<byte>)
    requires forall i :: 0 <= i < |s| ==> s[i] as int < 256
    ensures |r| == |s|
    ensures forall i :: 0 <= i < |s| ==> r[i] as int == s[i] as int
  {
    seq(|s|, i requires 0 <= i < |s| => s[i] as int as byte)
  }

  /** The prompt written before the read, with no line terminator. */
  const PROMPT: seq<byte> := Bytes("Password: ")
  /** The message written when the password does not match. */
  const DENY: seq<byte> := Bytes("\nAccess denied.\n")

  /**
    What `perror("execl")` writes to stderr: the call's name, `": "`, the
    error text for `errno` (`errText`, which depends on the C library) and a
    newline.
   */
  function PerrorLine(errText: seq<byte>): (r: seq<byte>)
    ensures |r| == |errText| + 8
    ensures r[..7] == Bytes("execl: ") && r[7..|r| - 1] == errText && r[|r| - 1] == LF
  {
    Bytes("execl: ") + errText + [LF]
  }

  predicate IsTerminator(b: byte)
  {
    b == LF || b == CR
  }

  // ---------------------------------------------------------------------------
  // The read

  /** What one `read(client_fd, pass_buf, MAX_PASS_LEN)` can deliver. */
  type Chunk = s: seq<byte> | |s| <= MAX_PASS_LEN

  /** The result of the read: an error (-1), or the bytes delivered (none at end of stream). */
  datatype ReadResult = ReadFailed | Received(data: Chunk)

  /** The `ssize_t` the read returns. */
  function Count(r: ReadResult): (n: int)
    ensures n <= MAX_PASS_LEN
    ensures n <= 0 <==> r.ReadFailed? || r.data == []
    ensures r.Received? ==> n == |r.data|
  {
    match r
    case ReadFailed => -1
    case Received(d) => |d|
  }

  /**
    The read on a connection where `pending` bytes are waiting: it takes
    as many as fit in `MAX_PASS_LEN` and leaves the rest unread.
   */
  function ReadAvailable(pending: seq<byte>): (r: ReadResult)
    ensures r.Received? && r.data <= pending
    ensures |r.data| == if |pending| < MAX_PASS_LEN then |pending| else MAX_PASS_LEN
  {
    if |pending| <= MAX_PASS_LEN then Received(pending) else Received(pending[..MAX_PASS_LEN])
  }

  /**
    The effect of the read on `pass_buf`: the delivered bytes land at the
    front, and every other cell keeps what it held.
   */
  method Read(passBuf: array<byte>, r: ReadResult) returns (n: int)
    requires passBuf.Length == BUF_LEN
    modifies passBuf
    ensures n == Count(r)
    ensures r.ReadFailed? ==> passBuf[..] == old(passBuf[..])
    ensures r.Received? ==> passBuf[..] == r.data + old(passBuf[..])[|r.data|..]
  {
    match r
    case ReadFailed =>
      n := -1;
    case Received(d) =>
      forall i | 0 <= i < |d| {
        passBuf[i] := d[i];
      }
      n := |d|;
      assert passBuf[..] == d + old(passBuf[..])[|d|..];
  }

  // ---------------------------------------------------------------------------
  // The terminate step

  /**
    The one cell the terminate step overwrites after a read of `n` bytes:
    the last byte read when it is a line terminator, else the cell right
    after the data. It always lies inside `pass_buf`, even for `n ==
    MAX_PASS_LEN`.
   */
  function TerminatorIndex(buf: seq<byte>, n: int): (i: nat)
    requires |buf| == BUF_LEN && 1 <= n <= MAX_PASS_LEN
    ensures i < |buf|
    ensures i == n - 1 || i == n
    ensures i == n - 1 <==> IsTerminator(buf[n - 1])
  {
    if IsTerminator(buf[n - 1]) then n - 1 else n
  }

  /** `pass_buf` after the terminate step: exactly one cell changed, to NUL. */
  function Terminated(buf: seq<byte>, n: int): (r: seq<byte>)
    requires |buf| == BUF_LEN && 1 <= n <= MAX_PASS_LEN
    ensures |r| == |buf|
    ensures r[TerminatorIndex(buf, n)] == NUL
    ensures forall j :: 0 <= j < |buf| && j != TerminatorIndex(buf, n) ==> r[j] == buf[j]
  {
    buf[TerminatorIndex(buf, n) := NUL]
  }

  /** The terminate step, in place on `pass_buf`. */
  method Terminate(passBuf: array<byte>, n: int)
    requires passBuf.Length == BUF_LEN && 1 <= n <= MAX_PASS_LEN
    modifies passBuf
    ensures passBuf[..] == Terminated(old(passBuf[..]), n)
  {
    if passBuf[n - 1] == LF || passBuf[n - 1] == CR {
      passBuf[n - 1] := NUL;
    } else {
      passBuf[n] := NUL;
    }
  }

  /**
    The attempt the comparison is meant to see: the bytes read with exactly
    one trailing line terminator removed, if the last byte is one.
   */
  function Normalize(d: seq<byte>): (r: seq<byte>)
    requires |d| > 0
    ensures r <= d
    ensures |r| == |d| - 1 <==> IsTerminator(d[|d| - 1])
    ensures !IsTerminator(d[|d| - 1]) ==> r == d
  {
    if IsTerminator(d[|d| - 1]) then d[..|d| - 1] else d
  }

  /** Normalizing removes at most one terminator: a second one stays. */
  lemma OnlyOneTerminatorStripped(p: seq<byte>, t1: byte, t2: byte)
    requires IsTerminator(t1) && IsTerminator(t2)
    ensures Normalize(p + [t1, t2]) == p + [t1]
    ensures Normalize(p + [t1]) == p
  {
  }

  /**
    After a read of `d` into a buffer with any contents, the C string the
    terminate step leaves in the buffer is the C string of the normalized
    attempt: whatever the buffer held beyond the read is never compared.
   */
  lemma TerminatedCStr(buf: seq<byte>, d: seq<byte>)
    requires |buf| == BUF_LEN && 1 <= |d| <= MAX_PASS_LEN && buf[..|d|] == d
    ensures CStr(Terminated(buf, |d|)) == CStr(Normalize(d))
  {
    var n := |d|;
    var t := Terminated(buf, n);
    var i := TerminatorIndex(buf, n);
    assert t[..i] == Normalize(d) by {
      assert d[n - 1] == buf[n - 1];
      forall j | 0 <= j < i ensures t[j] == Normalize(d)[j] {
        assert d[j] == buf[j];
      }
    }
    CStrStopsAtNul(t, i);
  }

  // ---------------------------------------------------------------------------
  // The outcome

  /** The three ways the child branch ends. */
  datatype Outcome = NoPassword | AccessDenied | LaunchShell

  /**
    The branch the child takes for read result `r` and configured
    `password`: no password when the read returns `n <= 0`, else the shell
    exactly when the normalized attempt and the password are equal as C
    strings, else the denial.
   */
  function SessionOutcome(r: ReadResult, password: seq<byte>): (o: Outcome)
    ensures o == NoPassword <==> Count(r) <= 0
    ensures o == LaunchShell <==>
              r.Received? && |r.data| > 0 && CStr(Normalize(r.data)) == CStr(password)
    ensures o == AccessDenied <==>
              r.Received? && |r.data| > 0 && CStr(Normalize(r.data)) != CStr(password)
  {
    match r
    case ReadFailed => NoPassword
    case Received(d) =>
      if |d| == 0 then NoPassword
      else if StrCmp(Normalize(d), password) != 0 then AccessDenied
      else LaunchShell
  }

  /**
    The comparison the child makes on its buffer after the read and the
    terminate step chooses the same branch as `SessionOutcome`.
   */
  lemma CompareDecides(buf: seq<byte>, r: ReadResult, password: seq<byte>)
    requires r.Received? && 1 <= |r.data| && |buf| == BUF_LEN && buf[..|r.data|] == r.data
    ensures StrCmp(Terminated(buf, |r.data|), password) != 0 ==> SessionOutcome(r, password) == AccessDenied
    ensures StrCmp(Terminated(buf, |r.data|), password) == 0 ==> SessionOutcome(r, password) == LaunchShell
  {
    TerminatedCStr(buf, r.data);
  }

  /**
    The child's buffer work: read into a fresh `pass_buf` holding `stack`,
    give up on `n <= 0`, terminate in place, and `strcmp` with the password.
   */
  method CheckPassword(r: ReadResult, stack: seq<byte>, password: seq<byte>) returns (o: Outcome)
    requires |stack| == BUF_LEN
    ensures o == SessionOutcome(r, password)
  {
    var passBuf := new byte[BUF_LEN](i => if 0 <= i < |stack| then stack[i] else NUL);
    var n := Read(passBuf, r);
    if n <= 0 {
      return NoPassword;
    }
    ghost var afterRead := passBuf[..];
    Terminate(passBuf, n);
    CompareDecides(afterRead, r, password);
    if StrCmp(passBuf[..], password) != 0 {
      o := AccessDenied;
    } else {
      o := LaunchShell;
    }
  }

  /** A password sent with one line terminator after it matches. */
  lemma TerminatedAttemptMatches(password: seq<byte>, t: byte)
    requires NulFree(password) && |password| < MAX_PASS_LEN && IsTerminator(t)
    ensures SessionOutcome(Received(password + [t]), password) == LaunchShell
  {
  }

  /** A password followed by two terminators (`"\r\n"`) keeps the first one and is refused. */
  lemma CrLfAttemptDenied(password: seq<byte>)
    requires NulFree(password) && |password| + 2 <= MAX_PASS_LEN
    ensures SessionOutcome(Received(password + [CR, LF]), password) == AccessDenied
  {
  }

  /** An attempt with an embedded NUL is compared by what comes before it. */
  lemma EmbeddedNulAttemptMatches(password: seq<byte>, junk: seq<byte>)
    requires NulFree(password) && |password| + 1 + |junk| <= MAX_PASS_LEN
    ensures SessionOutcome(Received(password + [NUL] + junk), password) == LaunchShell
  {
    var d := password + [NUL] + junk;
    var a := Normalize(d);
    if a == d {
      CStrEmbeddedNul(password, junk);
    } else {
      assert junk != [];
      var rest := junk[..|junk| - 1];
      assert a == password + [NUL] + rest;
      CStrEmbeddedNul(password, rest);
    }
    CStrOfNulFree(password);
  }

  /**
    A password longer than `MAX_PASS_LEN` can never be matched: the
    compared C string is never longer than the bytes read.
   */
  lemma LongPasswordNeverMatches(password: seq<byte>, r: ReadResult)
    requires NulFree(password) && |password| > MAX_PASS_LEN
    ensures SessionOutcome(r, password) != LaunchShell
  {
  }

  /**
    A password of exactly `MAX_PASS_LEN` bytes sent with its newline
    matches: the read stops before the newline and the full-length attempt
    is compared as it is.
   */
  lemma FullLengthAttemptMatches(password: seq<byte>)
    requires NulFree(password) && |password| == MAX_PASS_LEN
    requires !IsTerminator(password[MAX_PASS_LEN - 1])
    ensures ReadAvailable(password + [LF]) == Received(password)
    ensures SessionOutcome(ReadAvailable(password + [LF]), password) == LaunchShell
  {
  }

  /** The attempt is cut at `MAX_PASS_LEN` bytes: bytes sent after that point never matter. */
  lemma TruncatedAttempt(sent: seq<byte>, extra: seq<byte>, password: seq<byte>)
    requires |sent| >= MAX_PASS_LEN
    ensures SessionOutcome(ReadAvailable(sent + extra), password)
         == SessionOutcome(ReadAvailable(sent), password)
  {
    assert (sent + extra)[..MAX_PASS_LEN] == sent[..MAX_PASS_LEN];
    if |sent| == MAX_PASS_LEN {
      assert sent[..MAX_PASS_LEN] == sent;
    }
    assert ReadAvailable(sent + extra) == ReadAvailable(sent);
  }

  /** The configured password of the usage example. */
  function Secret(): (pw: seq<byte>)
    ensures NulFree(pw) && |pw| == 9
  {
    Bytes("secret123")
  }

  /** With the password `secret123`, the attempt `"secret123\n"` opens the shell. */
  lemma SecretWithNewlineMatches()
    ensures SessionOutcome(Received(Bytes("secret123\n")), Secret()) == LaunchShell
  {
  }

  /** `"secret123\r\n"` keeps its `'\r'` and is denied. */
  lemma SecretWithCrLfDenied()
    ensures SessionOutcome(Received(Bytes("secret123\r\n")), Secret()) == AccessDenied
  {
  }

  /** `"secret123\0junk"` is compared as `"secret123"` and opens the shell. */
  lemma SecretWithEmbeddedNulMatches()
    ensures SessionOutcome(Received(Bytes("secret123\0junk")), Secret()) == LaunchShell
  {
    assert Bytes("secret123\0junk") == Secret() + [NUL] + Bytes("junk");
    EmbeddedNulAttemptMatches(Secret(), Bytes("junk"));
  }

  /** `"wrong\n"` is denied. */
  lemma WrongAttemptDenied()
    ensures SessionOutcome(Received(Bytes("wrong\n")), Secret()) == AccessDenied
  {
  }

  // ---------------------------------------------------------------------------
  // The session state machine

  datatype State = AwaitingPassword | Authenticated | ShellRunning | Closed

  /** The log lines the child writes, without their timestamp and peer details. */
  datatype LogEntry = NoPasswordRead | IncorrectPassword | PasswordOk | ExecFailed

  /** The transitions a session can take; none leads back. */
  predicate Step(a: State, b: State)
  {
    match a
    case AwaitingPassword => b == Authenticated || b == Closed
    case Authenticated => b == ShellRunning || b == Closed
    case ShellRunning => b == Closed
    case Closed => false
  }

  function Rank(s: State): nat
  {
    match s
    case AwaitingPassword => 0
    case Authenticated => 1
    case ShellRunning => 2
    case Closed => 3
  }

  /** A sequence of states each reached from the one before by a `Step`. */
  predicate IsRun(trace: seq<State>)
  {
    forall i :: 0 <= i < |trace| - 1 ==> Step(trace[i], trace[i + 1])
  }

  /** Along any run the states strictly advance, so no state is visited twice. */
  lemma {:induction false} NoWayBack(trace: seq<State>)
    requires IsRun(trace)
    ensures forall i, j :: 0 <= i < j < |trace| ==> Rank(trace[i]) < Rank(trace[j])
    ensures forall i, j :: 0 <= i < j < |trace| ==> trace[i] != trace[j]
    ensures |trace| <= 4
  {
    if |trace| > 1 {
      var init := trace[..|trace| - 1];
      assert IsRun(init) by {
        forall i | 0 <= i < |init| - 1 ensures Step(init[i], init[i + 1]) {
          assert Step(trace[i], trace[i + 1]);
        }
      }
      NoWayBack(init);
      var k := |trace| - 1;
      assert Step(trace[k - 1], trace[k]);
      forall i | 0 <= i < k ensures Rank(trace[i]) < Rank(trace[k]) {
        assert init[i] == trace[i];
        if i < k - 1 {
          assert Rank(init[i]) < Rank(init[k - 1]);
        }
      }
      assert Rank(trace[0]) + k - 1 <= Rank(trace[k - 1]) by {
        RankGrows(init);
      }
    }
  }

  /** Along a run, the rank grows by at least one per step. */
  lemma {:induction false} RankGrows(trace: seq<State>)
    requires IsRun(trace) && |trace| > 0
    ensures Rank(trace[0]) + |trace| - 1 <= Rank(trace[|trace| - 1])
  {
    if |trace| > 1 {
      var init := trace[..|trace| - 1];
      assert IsRun(init) by {
        forall i | 0 <= i < |init| - 1 ensures Step(init[i], init[i + 1]) {
          assert Step(trace[i], trace[i + 1]);
        }
      }
      RankGrows(init);
      assert Step(trace[|trace| - 2], trace[|trace| - 1]);
    }
  }

  /**
    One accepted connection, seen from the child process that serves it:
    what it has written to the client, what it has logged, and whether the
    connection is still open, redirected onto stdio, or the process has
    exited with `EXIT_FAILURE`.

    The child inherits the parent's `stdout` buffer at `fork`: the
    listening line of line 134 is never flushed, so when `stdout` is not a
    terminal the buffer (`pendingOut`) still holds it. `exit` flushes it to
    whatever descriptor 1 is at that moment (`serverOut` records what goes
    to the server's own `stdout`); a successful `execl` discards it.
   */
  class Session {
    const password: seq<byte>
    const pendingOut: seq<byte>
    var state: State
    var sent: seq<byte>
    var serverOut: seq<byte>
    var log: seq<LogEntry>
    var connOpen: bool
    var redirected: bool
    var failureExit: bool

    /** What each state implies about the connection, the log and the bytes sent. */
    ghost predicate Valid()
      reads this
    {
      match state
      case AwaitingPassword =>
        sent == [] && log == [] && serverOut == [] && connOpen && !redirected && !failureExit
      case Authenticated =>
        sent == PROMPT && log == [PasswordOk] && serverOut == [] && connOpen && !redirected && !failureExit
      case ShellRunning =>
        sent == PROMPT && log == [PasswordOk] && serverOut == [] && connOpen && redirected && !failureExit
      case Closed =>
        !connOpen &&
        ((sent == PROMPT && log == [NoPasswordRead] && serverOut == pendingOut &&
          !redirected && failureExit) ||
         (sent == PROMPT + DENY && log == [IncorrectPassword] && serverOut == pendingOut &&
          !redirected && failureExit) ||
         ((exists e :: sent == PROMPT + PerrorLine(e) + pendingOut) &&
          log == [PasswordOk, ExecFailed] && serverOut == [] && redirected && failureExit) ||
         (sent == PROMPT && log == [PasswordOk] && serverOut == [] && redirected && !failureExit))
    }

    /**
      A freshly forked child holding the accepted connection, with
      `pendingOut` left in its inherited `stdout` buffer.
     */
    constructor (password: seq<byte>, pendingOut: seq<byte>)
      ensures Valid() && state == AwaitingPassword
      ensures this.password == password && this.pendingOut == pendingOut
    {
      this.password := password;
      this.pendingOut := pendingOut;
      state := AwaitingPassword;
      sent, log, serverOut := [], [], [];
      connOpen, redirected, failureExit := true, false, false;
    }

    /**
      Prompt, read, terminate, compare and branch. `r` is what the read
      delivers; `stack` is whatever `pass_buf` held before it.
     */
    method Challenge(r: ReadResult, stack: seq<byte>) returns (o: Outcome)
      requires Valid() && state == AwaitingPassword && |stack| == BUF_LEN
      modifies this
      ensures Valid() && Step(old(state), state)
      ensures o == SessionOutcome(r, password)
      ensures state == (if o == LaunchShell then Authenticated else Closed)
      ensures !redirected
      ensures o == NoPassword ==> sent == PROMPT && log == [NoPasswordRead] && !connOpen && failureExit
      ensures o == AccessDenied ==> sent == PROMPT + DENY && log == [IncorrectPassword] && !connOpen && failureExit
      ensures o == LaunchShell ==> sent == PROMPT && log == [PasswordOk] && connOpen && !failureExit
      ensures serverOut == (if o == LaunchShell then [] else pendingOut)
    {
      sent := sent + PROMPT;
      o := CheckPassword(r, stack, password);
      if o == NoPassword {
        log := log + [NoPasswordRead];
        connOpen, failureExit := false, true;
        serverOut := pendingOut;
        state := Closed;
      } else if o == AccessDenied {
        sent := sent + DENY;
        log := log + [IncorrectPassword];
        connOpen, failureExit := false, true;
        serverOut := pendingOut;
        state := Closed;
      } else {
        log := log + [PasswordOk];
        state := Authenticated;
      }
    }

    /**
      `dup2` the connection onto stdin, stdout and stderr, then `execl` the
      shell; `execOk` says whether the exec replaced the process image.
      The success entry is already in the log when the redirect happens.
      When the exec fails, `perror` writes to stderr, which is now the
      connection, so the client receives the error line for `errText`; then
      `exit` flushes the inherited `stdout` buffer onto descriptor 1, which
      is the connection too, so `pendingOut` follows it.
     */
    method Launch(execOk: bool, errText: seq<byte>)
      requires Valid() && state == Authenticated
      modifies this
      ensures Valid() && Step(old(state), state)
      ensures old(log) == [PasswordOk] && redirected
      ensures state == (if execOk then ShellRunning else Closed)
      ensures log == old(log) + (if execOk then [] else [ExecFailed])
      ensures sent == old(sent) + (if execOk then [] else PerrorLine(errText) + pendingOut)
      ensures serverOut == old(serverOut) == []
      ensures connOpen == execOk && failureExit == !execOk
    {
      redirected := true;
      if !execOk {
        log := log + [ExecFailed];
        sent := sent + PerrorLine(errText);
        sent := sent + pendingOut;
        connOpen, failureExit := false, true;
        state := Closed;
      } else {
        state := ShellRunning;
      }
    }

    /** The shell exits; with it goes the last descriptor of the connection. */
    method ShellExited()
      requires Valid() && state == ShellRunning
      modifies this
      ensures Valid() && Step(old(state), state)
      ensures state == Closed && !connOpen
      ensures log == old(log) && sent == old(sent) && serverOut == old(serverOut) == []
      ensures redirected && !failureExit
    {
      connOpen := false;
      state := Closed;
    }
  }
}
