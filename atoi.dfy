/**
  The startup port check of the server: `port = atoi(argv[2])` followed by
  the range test `port <= 0 || port > 65535` (fatal when it holds).

  `atoi` is section 7.22.1.2 of C11: it skips leading white space, takes an
  optional sign and the longest run of decimal digits after it, and returns
  0 when there are none. C11 leaves a value that does not fit in an `int`
  undefined; the GNU C library implements `atoi(s)` as `(int) strtol(s,
  NULL, 10)`, where `strtol` (section 7.22.1.4) clamps to the 64-bit `long`
  range and the cast to the 32-bit `int` keeps the low 32 bits (GCC's
  documented conversion). `Atoi` models that implementation.
 */
module Atoi {

  const INT_MIN: int := -0x8000_0000
  const INT_MAX: int := 0x7FFF_FFFF
  const LONG_MIN: int := -0x8000_0000_0000_0000
  const LONG_MAX: int := 0x7FFF_FFFF_FFFF_FFFF
  const PORT_MAX: int := 65535

  /** `isspace` in the "C" locale: space, `\t`, `\n`, `\v`, `\f`, `\r`. */
  predicate IsSpace(c: char)
  {
    c == ' ' || ('\t' <= c <= '\r')
  }

  predicate IsDigit(c: char)
  {
    '0' <= c <= '9'
  }

  predicate AllDigits(s: string)
  {
    forall i :: 0 <= i < |s| ==> IsDigit(s[i])
  }

  /** What is left of `s` once its leading white space is skipped. */
  function SkipSpace(s: string): (r: string)
    ensures |r| <= |s|
    ensures r == s[|s| - |r|..]
    ensures r == [] || !IsSpace(r[0])
    ensures forall i :: 0 <= i < |s| - |r| ==> IsSpace(s[i])
  {
    if s != [] && IsSpace(s[0]) then SkipSpace(s[1..]) else s
  }

  /** The longest prefix of `s` made of decimal digits. */
  function DigitRun(s: string): (r: string)
    ensures r <= s && AllDigits(r)
    ensures |r| < |s| ==> !IsDigit(s[|r|])
  {
    if s != [] && IsDigit(s[0]) then [s[0]] + DigitRun(s[1..]) else []
  }

  /** The number a run of decimal digits denotes, most significant digit first. */
  function DecimalValue(ds: string): (v: nat)
    requires AllDigits(ds)
  {
    if ds == [] then 0
    else DecimalValue(ds[..|ds| - 1]) * 10 + (ds[|ds| - 1] as int - '0' as int)
  }

  /** A digit run is zero exactly when every digit in it is `'0'` (or there is none). */
  lemma {:induction false} DecimalValueZero(ds: string)
    requires AllDigits(ds)
    ensures DecimalValue(ds) == 0 <==> forall i :: 0 <= i < |ds| ==> ds[i] == '0'
  {
    if ds != [] {
      var init := ds[..|ds| - 1];
      DecimalValueZero(init);
      assert forall i :: 0 <= i < |init| ==> init[i] == ds[i];
    }
  }

  /** True when the number in `s` carries a minus sign. */
  predicate Negative(s: string)
  {
    var t := SkipSpace(s);
    t != [] && t[0] == '-'
  }

  /** What follows one leading `'-'` or `'+'`, if `t` starts with either. */
  function AfterSign(t: string): (u: string)
    ensures u == t || (t != [] && (t[0] == '-' || t[0] == '+') && u == t[1..])
    ensures t != [] && (t[0] == '-' || t[0] == '+') ==> u == t[1..]
  {
    if t != [] && (t[0] == '-' || t[0] == '+') then t[1..] else t
  }

  /**
    The digits the conversion reads: the longest digit run after the white
    space and the optional sign.
   */
  function Digits(s: string): (ds: string)
    ensures AllDigits(ds)
    ensures var u := AfterSign(SkipSpace(s)); ds <= u && (|ds| < |u| ==> !IsDigit(u[|ds|]))
  {
    DigitRun(AfterSign(SkipSpace(s)))
  }

  /**
    The mathematical value of the number at the front of `s`, as the
    parse of sections 7.22.1.2 and 7.22.1.4 of C11 reads it, before any
    range limit applies. It is zero exactly when no non-zero digit is
    read, and negative only under a minus sign.
   */
  function ParsedValue(s: string): (v: int)
    ensures v == 0 <==> forall i :: 0 <= i < |Digits(s)| ==> Digits(s)[i] == '0'
    ensures v < 0 ==> Negative(s)
  {
    DecimalValueZero(Digits(s));
    var m: int := DecimalValue(Digits(s));
    if Negative(s) then -m else m
  }

  /** `strtol(s, NULL, 10)` on a 64-bit `long`: the parsed value clamped to the `long` range. */
  function Strtol(s: string): (r: int)
    ensures LONG_MIN <= r <= LONG_MAX
    ensures LONG_MIN <= ParsedValue(s) <= LONG_MAX ==> r == ParsedValue(s)
    ensures ParsedValue(s) > LONG_MAX ==> r == LONG_MAX
    ensures ParsedValue(s) < LONG_MIN ==> r == LONG_MIN
  {
    var v := ParsedValue(s);
    if v > LONG_MAX then LONG_MAX else if v < LONG_MIN then LONG_MIN else v
  }

  /** Conversion of a `long` to a 32-bit `int`: the value congruent modulo 2^32 in the `int` range. */
  function WrapInt(x: int): (r: int)
    ensures INT_MIN <= r <= INT_MAX
    ensures (r - x) % 0x1_0000_0000 == 0
    ensures INT_MIN <= x <= INT_MAX ==> r == x
  {
    var m := x % 0x1_0000_0000;
    if m > INT_MAX then m - 0x1_0000_0000 else m
  }

  /**
    `atoi(s)` as the GNU C library computes it. Where C11 defines the
    result (the parsed value fits in an `int`) it is that value.
   */
  function Atoi(s: string): (r: int)
    ensures INT_MIN <= r <= INT_MAX
    ensures INT_MIN <= ParsedValue(s) <= INT_MAX ==> r == ParsedValue(s)
  {
    WrapInt(Strtol(s))
  }

  datatype PortCheck = Port(port: int) | InvalidPort

  /**
    The check at startup, as written: the argument is accepted exactly
    when `atoi` of it lies in 1..65535; anything else, including every
    argument that converts to 0, is the fatal "Invalid port" error.
   */
  function ValidatePort(arg: string): (r: PortCheck)
    ensures r.Port? <==> 1 <= Atoi(arg) <= PORT_MAX
    ensures r.Port? ==> r.port == Atoi(arg) && 1 <= r.port <= PORT_MAX
  {
    var port := Atoi(arg);
    if port <= 0 || port > PORT_MAX then InvalidPort else Port(port)
  }

  /**
    The check as evidently intended: the number written in the argument
    itself must lie in 1..65535.
   */
  function ValidatePortStrict(arg: string): (r: PortCheck)
    ensures r.Port? <==> 1 <= ParsedValue(arg) <= PORT_MAX
    ensures r.Port? ==> r.port == ParsedValue(arg)
  {
    var v := ParsedValue(arg);
    if v <= 0 || v > PORT_MAX then InvalidPort else Port(v)
  }

  /**
    An argument whose digits are all `'0'`, or that has none (`"abc"`,
    `"0"`, `"-000"`, `"0x50"`), converts to 0 and is rejected by both checks.
   */
  lemma ZeroRejected(arg: string)
    requires forall i :: 0 <= i < |Digits(arg)| ==> Digits(arg)[i] == '0'
    ensures Atoi(arg) == 0 && ParsedValue(arg) == 0
    ensures ValidatePort(arg) == InvalidPort
    ensures ValidatePortStrict(arg) == InvalidPort
  {
    DecimalValueZero(Digits(arg));
  }

  /** Whenever the written number fits in an `int`, both checks agree. */
  lemma StrictAgreesWhenRepresentable(arg: string)
    requires INT_MIN <= ParsedValue(arg) <= INT_MAX
    ensures ValidatePortStrict(arg) == ValidatePort(arg)
  {
  }

  /** The digit for `d` in 0..9. */
  function DigitChar(d: nat): (c: char)
    requires d < 10
    ensures IsDigit(c) && c as int - '0' as int == d
  {
    ('0' as int + d) as char
  }

  /** The decimal numeral of `p`, without leading zeros. */
  function ToDecimal(p: nat): (ds: string)
    ensures AllDigits(ds) && |ds| > 0
    ensures |ds| > 1 ==> ds[0] != '0'
  {
    if p < 10 then [DigitChar(p)] else ToDecimal(p / 10) + [DigitChar(p % 10)]
  }

  /** Reading back a numeral written by `ToDecimal` gives the number. */
  lemma {:induction false} DecimalRoundTrip(p: nat)
    ensures DecimalValue(ToDecimal(p)) == p
  {
    if p >= 10 {
      var ds := ToDecimal(p);
      assert ds[..|ds| - 1] == ToDecimal(p / 10);
      DecimalRoundTrip(p / 10);
    }
  }

  /** An ordinary port argument, written as a plain decimal numeral, is accepted as itself. */
  lemma PortRoundTrip(p: nat)
    requires 1 <= p <= PORT_MAX
    ensures ParsedValue(ToDecimal(p)) == p
    ensures ValidatePort(ToDecimal(p)) == Port(p)
    ensures ValidatePortStrict(ToDecimal(p)) == Port(p)
  {
    var ds := ToDecimal(p);
    assert !IsSpace(ds[0]) && ds[0] != '-' && ds[0] != '+';
    assert DigitRun(ds) == ds;
    DecimalRoundTrip(p);
  }

  /** Leading white space is skipped whatever follows it, as long as that does not start with a space. */
  lemma {:induction false} SkipSpacePrefix(w: string, u: string)
    requires forall i :: 0 <= i < |w| ==> IsSpace(w[i])
    requires u == [] || !IsSpace(u[0])
    ensures SkipSpace(w + u) == u
  {
    if w != [] {
      assert (w + u)[1..] == w[1..] + u;
      SkipSpacePrefix(w[1..], u);
    }
  }

  /** A digit string followed by a non-digit (or nothing) is exactly the digit run. */
  lemma {:induction false} DigitRunPrefix(ds: string, tail: string)
    requires AllDigits(ds)
    requires tail == [] || !IsDigit(tail[0])
    ensures DigitRun(ds + tail) == ds
  {
    if ds != [] {
      assert (ds + tail)[1..] == ds[1..] + tail;
      DigitRunPrefix(ds[1..], tail);
    } else {
      assert ds + tail == tail;
    }
  }

  /** An optional sign in front of a digit: it is not white space, and `AfterSign` drops exactly it. */
  lemma SignThenDigit(sgn: string, rest: string)
    requires sgn == "" || sgn == "+" || sgn == "-"
    requires rest != [] && IsDigit(rest[0])
    ensures !IsSpace((sgn + rest)[0])
    ensures AfterSign(sgn + rest) == rest
    ensures (sgn + rest)[0] == '-' <==> sgn == "-"
  {
    var u := sgn + rest;
    if sgn == "" {
      assert u == rest;
    } else {
      assert |sgn| == 1 && sgn[0] in "+-";
      assert u[0] == sgn[0] && u[1..] == rest;
    }
  }

  /** White space, an optional sign, digits and a non-digit: the parse reads exactly those digits under that sign. */
  lemma SignedDigits(w: string, sgn: string, ds: string, tail: string)
    requires forall i :: 0 <= i < |w| ==> IsSpace(w[i])
    requires sgn == "" || sgn == "+" || sgn == "-"
    requires ds != [] && AllDigits(ds)
    requires tail == [] || !IsDigit(tail[0])
    ensures Digits(w + sgn + ds + tail) == ds
    ensures Negative(w + sgn + ds + tail) <==> sgn == "-"
  {
    var rest := ds + tail;
    var u := sgn + rest;
    assert w + sgn + ds + tail == w + u;
    SignThenDigit(sgn, rest);
    SkipSpacePrefix(w, u);
    DigitRunPrefix(ds, tail);
  }

  /**
    The general round trip of the parse: white space, an optional sign,
    the numeral of `p` and any text that does not start with a digit read
    back as `p`, negated under a minus sign.
   */
  lemma ParseRoundTrip(w: string, sgn: string, p: nat, tail: string)
    requires forall i :: 0 <= i < |w| ==> IsSpace(w[i])
    requires sgn == "" || sgn == "+" || sgn == "-"
    requires tail == [] || !IsDigit(tail[0])
    ensures ParsedValue(w + sgn + ToDecimal(p) + tail) == (if sgn == "-" then 0 - p as int else p as int)
  {
    SignedDigits(w, sgn, ToDecimal(p), tail);
    DecimalRoundTrip(p);
  }

  /** The ten digits of the counterexample denote the number they spell. */
  lemma BigValue(ds: string)
    requires |ds| == 10
    requires ds[0] == '4' && ds[1] == '2' && ds[2] == '9' && ds[3] == '4' && ds[4] == '9' && ds[5] == '6' && ds[6] == '9' && ds[7] == '6' && ds[8] == '1' && ds[9] == '9'
    ensures AllDigits(ds) && DecimalValue(ds) == 4294969619
  {
    assert DecimalValue(ds[..1]) == 4 by { assert ds[..1][..0] == ds[..0]; }
    assert DecimalValue(ds[..2]) == 42 by { assert ds[..2][..1] == ds[..1]; }
    assert DecimalValue(ds[..3]) == 429 by { assert ds[..3][..2] == ds[..2]; }
    assert DecimalValue(ds[..4]) == 4294 by { assert ds[..4][..3] == ds[..3]; }
    assert DecimalValue(ds[..5]) == 42949 by { assert ds[..5][..4] == ds[..4]; }
    assert DecimalValue(ds[..6]) == 429496 by { assert ds[..6][..5] == ds[..5]; }
    assert DecimalValue(ds[..7]) == 4294969 by { assert ds[..7][..6] == ds[..6]; }
    assert DecimalValue(ds[..8]) == 42949696 by { assert ds[..8][..7] == ds[..7]; }
    assert DecimalValue(ds[..9]) == 429496961 by { assert ds[..9][..8] == ds[..8]; }
    assert DecimalValue(ds[..10]) == 4294969619 by { assert ds[..10][..9] == ds[..9]; }
    assert ds[..10] == ds;
  }

  /** An all-digit string is its own digit run. */
  lemma DigitRunOfDigits(s: string)
    requires AllDigits(s)
    ensures DigitRun(s) == s
  {
  }

  /** The counterexample's parse: no white space, no sign, all ten digits. */
  lemma BigParsed(arg: string)
    requires arg == "4294969619"
    ensures ParsedValue(arg) == 4294969619
  {
    BigValue(arg);
    DigitRunOfDigits(arg);
    assert !IsSpace(arg[0]);
  }

  /** Keeping the low 32 bits of 2^32 + 2323 leaves 2323. */
  lemma BigWrap()
    ensures WrapInt(4294969619) == 2323
  {
  }

  /**
    As written, an argument far above the port range passes the check:
    4294969619 is 2^32 + 2323, `strtol` keeps it (it fits in a `long`),
    and the cast to `int` leaves 2323, so the server goes on with port 2323.
    The strict check rejects it.
   */
  lemma WrappedPortAccepted(arg: string)
    requires arg == "4294969619"
    ensures ParsedValue(arg) > PORT_MAX
    ensures ValidatePort(arg) == Port(2323)
    ensures ValidatePortStrict(arg) == InvalidPort
  {
    BigParsed(arg);
    BigWrap();
  }
}
