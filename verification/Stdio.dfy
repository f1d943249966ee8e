/**
  The formatter of lib/stdio.c: itoa and vsprintf, on bytes in a buffer. Neither checks how large the
  buffer is; that it is large enough is asked of the caller, here as there.
 */
module Stdio {
  import opened Machine

  const NUL: Byte := 0
  const PERCENT: Byte := 37
  const MINUS: Byte := 45
  const LOWER_C: Byte := 99
  const LOWER_D: Byte := 100
  const LOWER_S: Byte := 115
  const LOWER_X: Byte := 120

  // ---------------------------------------------------------------------------
  // Numbers
  // ---------------------------------------------------------------------------

  /** '0' to '9', then 'A' on; above radix 36 these would no longer be letters. */
  function DigitChar(m: nat): Byte
    requires m < 36
  {
    if m < 10 then m + 48 else m - 10 + 65
  }

  function DigitValue(ch: Byte): nat
  {
    if 48 <= ch <= 57 then ch - 48 else if 65 <= ch <= 90 then ch - 65 + 10 else 36
  }

  /** What itoa writes. */
  function Digits(value: nat, radix: nat): (s: seq<Byte>)
    requires 2 <= radix <= 36
    ensures |s| > 0
  {
    (if value / radix != 0 then Digits(value / radix, radix) else []) + [DigitChar(value % radix)]
  }

  /** Reading digits from the left. */
  function Parse(s: seq<Byte>, radix: nat): nat
  {
    if s == [] then 0 else Parse(s[..|s| - 1], radix) * radix + DigitValue(s[|s| - 1])
  }

  /** A numeral: digits of the radix, no leading zero but in "0" itself. */
  predicate Numeral(s: seq<Byte>, radix: nat)
  {
    && s != [] && (forall i :: 0 <= i < |s| ==> DigitValue(s[i]) < radix)
    && (|s| > 1 ==> s[0] != DigitChar(0))
  }

  /** Printing and parsing: the digits are a numeral and read back as the value. */
  lemma {:induction false} PrintThenParse(value: nat, radix: nat)
    requires 2 <= radix <= 36
    ensures Numeral(Digits(value, radix), radix) && Parse(Digits(value, radix), radix) == value
  {
    DigitsAreNumeral(value, radix);
    DigitsParse(value, radix);
  }

  lemma {:induction false} DigitsAreNumeral(value: nat, radix: nat)
    requires 2 <= radix <= 36
    ensures Numeral(Digits(value, radix), radix)
    ensures value > 0 ==> Digits(value, radix)[0] != DigitChar(0)
    decreases value
  {
    Quotient(value, radix);
    var m := value % radix;
    assert DigitValue(DigitChar(m)) == m;
    if value / radix != 0 {
      DigitsAreNumeral(value / radix, radix);
    }
  }

  lemma {:induction false} DigitsParse(value: nat, radix: nat)
    requires 2 <= radix <= 36
    ensures Parse(Digits(value, radix), radix) == value
    decreases value
  {
    Quotient(value, radix);
    var q, m := value / radix, value % radix;
    if q != 0 {
      DigitsParse(q, radix);
      ParseAppend(Digits(q, radix), q, m, radix);
    } else {
      ParseAppend([], q, m, radix);
    }
  }

  lemma ParseAppend(front: seq<Byte>, q: nat, m: nat, radix: nat)
    requires m < radix <= 36 && Parse(front, radix) == q
    ensures Parse(front + [DigitChar(m)], radix) == q * radix + m
  {
    var s := front + [DigitChar(m)];
    assert s[..|s| - 1] == front && DigitValue(s[|s| - 1]) == m;
  }

  lemma Quotient(value: nat, d: nat)
    requires d >= 1
    ensures value / d * d + value % d == value && 0 <= value % d < d && 0 <= value / d
    ensures value > 0 && d > 1 ==> value / d < value
  {
    var q := value / d;
    assert value == d * q + value % d;
    AtLeastTwice(d, q);
  }

  lemma AtLeastTwice(d: int, q: int)
    requires d >= 1
    ensures d >= 2 && q >= 0 ==> d * q >= 2 * q
    ensures q < 0 ==> d * q <= -d
  {
  }

  /** Parsing and printing: every numeral is what itoa prints for its value. */
  lemma {:induction false} ParseThenPrint(s: seq<Byte>, radix: nat)
    requires 2 <= radix <= 36 && Numeral(s, radix)
    ensures Digits(Parse(s, radix), radix) == s
    ensures s[0] != DigitChar(0) ==> Parse(s, radix) > 0
    decreases |s|
  {
    var front, last := s[..|s| - 1], s[|s| - 1];
    assert s == front + [last] && DigitChar(DigitValue(last)) == last;
    ParseAppend(front, Parse(front, radix), DigitValue(last), radix);
    DigitsOf(Parse(front, radix), radix, DigitValue(last));
    if front != [] {
      assert front[0] == s[0];
      ParseThenPrint(front, radix);
    }
  }

  lemma DigitsOf(q: nat, radix: nat, m: nat)
    requires 2 <= radix <= 36 && m < radix
    ensures Digits(q * radix + m, radix) == (if q != 0 then Digits(q, radix) else []) + [DigitChar(m)]
    ensures q * radix + m > 0 <==> q > 0 || m > 0
  {
    QuotientOf(q, radix, m);
    var v := q * radix + m;
    assert v / radix == q && v % radix == m;
  }

  lemma QuotientOf(q: nat, d: nat, m: nat)
    requires m < d
    ensures (q * d + m) / d == q && (q * d + m) % d == m
    ensures q * d + m > 0 <==> q > 0 || m > 0
  {
    var v := q * d + m;
    Quotient(v, d);
    var e := v / d - q;
    assert d * e == m - v % d;
    Multiple(d, e);
    Multiple(d, q);
  }

  lemma Multiple(d: int, e: int)
    requires d >= 0
    ensures e >= 1 ==> d * e >= d
    ensures e <= -1 ==> d * e <= -d
  {
  }

  /** The bytes `s` stand at `pos`, and everything else is as it was. */
  predicate Placed(now: seq<Byte>, was: seq<Byte>, pos: nat, s: seq<Byte>)
  {
    pos + |s| <= |was| && now == was[..pos] + s + was[pos + |s|..]
  }

  lemma PlacedTwice(was: seq<Byte>, mid: seq<Byte>, now: seq<Byte>, pos: nat, s: seq<Byte>, t: seq<Byte>)
    requires Placed(mid, was, pos, s) && Placed(now, mid, pos + |s|, t)
    ensures Placed(now, was, pos, s + t)
  {
    assert mid[..pos + |s|] == was[..pos] + s;
    assert mid[pos + |s| + |t|..] == was[pos + |s| + |t|..];
    assert now == was[..pos] + (s + t) + was[pos + |s + t|..];
  }

  /** `*(ptr++) = ch` */
  method PutByte(buf: array<Byte>, pos: nat, ch: Byte) returns (next: nat)
    requires pos < buf.Length
    modifies buf
    ensures next == pos + 1 && Placed(buf[..], old(buf[..]), pos, [ch])
  {
    buf[pos] := ch;
    next := pos + 1;
  }

  /** itoa: a digit at a time behind the digits of the quotient, through a pointer that advances. */
  method Itoa(value: Word32, buf: array<Byte>, pos: nat, radix: nat) returns (next: nat)
    requires 2 <= radix <= 36 && pos + |Digits(value, radix)| <= buf.Length
    modifies buf
    ensures next == pos + |Digits(value, radix)|
    ensures Placed(buf[..], old(buf[..]), pos, Digits(value, radix))
    decreases value
  {
    Quotient(value, radix);
    var m, i := value % radix, value / radix;
    ghost var was, front := buf[..], if i != 0 then Digits(i, radix) else [];
    next := pos;
    if i != 0 {
      next := Itoa(i, buf, pos, radix);
    }
    ghost var before := buf[..];
    next := PutDigit(m, buf, next);
    PlacedTwice(was, before, buf[..], pos, front, [DigitChar(m)]);
  }

  /** A remainder below ten becomes a decimal digit, any other a letter. */
  method PutDigit(m: nat, buf: array<Byte>, pos: nat) returns (next: nat)
    requires m < 36 && pos < buf.Length
    modifies buf
    ensures next == pos + 1 && Placed(buf[..], old(buf[..]), pos, [DigitChar(m)])
  {
    if m < 10 {
      next := PutByte(buf, pos, m + 48);
    } else {
      next := PutByte(buf, pos, m - 10 + 65);
    }
  }

  // ---------------------------------------------------------------------------
  // Formats
  // ---------------------------------------------------------------------------

  /** One variable argument: its 4-byte slot, and the string that is in memory where it points. */
  datatype Arg = Arg(word: Word32, text: seq<Byte>)

  predicate CString(s: seq<Byte>)
  {
    NUL !in s
  }

  /** `0 - arg`, as an int32_t stored into a uint32_t */
  function Negated(w: Word32): Word32
  {
    (TWO_32 - w) % TWO_32
  }

  /** The bytes of %d. */
  function Decimal(w: Word32): seq<Byte>
  {
    if w >= 0x8000_0000 then [MINUS] + Digits(Negated(w), 10) else Digits(w, 10)
  }

  predicate Specifier(ch: Byte)
  {
    ch == LOWER_X || ch == LOWER_S || ch == LOWER_C || ch == LOWER_D
  }

  /** What a specifier writes, strcpy's NUL left aside. */
  function Converted(ch: Byte, a: Arg): seq<Byte>
    requires Specifier(ch)
  {
    if ch == LOWER_X then Digits(a.word, 16)
    else if ch == LOWER_S then a.text
    else if ch == LOWER_C then [a.word % 256]
    else Decimal(a.word)
  }

  /** How many arguments the format takes. */
  function Needs(format: seq<Byte>): nat
  {
    if format == [] then 0
    else if format[0] != PERCENT then Needs(format[1..])
    else if |format| > 1 && Specifier(format[1]) then 1 + Needs(format[2..])
    else Needs(format[1..])
  }

  /**
    What vsprintf writes. An unknown letter after `%` is written as if the `%` were not there, and a
    second `%` starts over.
   */
  function Output(format: seq<Byte>, args: seq<Arg>): seq<Byte>
    requires Needs(format) <= |args|
  {
    if format == [] then []
    else if format[0] != PERCENT then [format[0]] + Output(format[1..], args)
    else if |format| > 1 && Specifier(format[1]) then Converted(format[1], args[0]) + Output(format[2..], args[1..])
    else Output(format[1..], args)
  }

  /** Is the byte behind the output a NUL that strcpy left there? `already` says so for what came before. */
  function Terminated(format: seq<Byte>, args: seq<Arg>, already: bool): bool
    requires Needs(format) <= |args|
  {
    if format == [] then already
    else if format[0] != PERCENT then Terminated(format[1..], args, false)
    else if |format| > 1 && Specifier(format[1]) then Terminated(format[2..], args[1..], format[1] == LOWER_S)
    else Terminated(format[1..], args, already)
  }

  /** strcpy to a place in the buffer. */
  method Strcpy(buf: array<Byte>, pos: nat, s: seq<Byte>)
    requires CString(s) && pos + |s| < buf.Length
    modifies buf
    ensures Placed(buf[..], old(buf[..]), pos, s + [NUL])
  {
    ghost var was := buf[..];
    var k, end := 0, pos;
    while k < |s|
      invariant k <= |s| && end == pos + k && Placed(buf[..], was, pos, s[..k])
    {
      ghost var before := buf[..];
      end := PutByte(buf, end, s[k]);
      PlacedTwice(was, before, buf[..], pos, s[..k], [s[k]]);
      assert s[..k] + [s[k]] == s[..k + 1];
      k := k + 1;
    }
    assert s[..k] == s;
    ghost var before := buf[..];
    end := PutByte(buf, end, NUL);
    PlacedTwice(was, before, buf[..], pos, s, [NUL]);
  }

  /** strlen of the buffer. */
  method Strlen(buf: array<Byte>) returns (n: nat)
    requires NUL in buf[..]
    ensures n < buf.Length && buf[n] == NUL && CString(buf[..n])
  {
    n := 0;
    while buf[n] != NUL
      invariant n < buf.Length && CString(buf[..n]) && NUL in buf[n..]
      decreases buf.Length - n
    {
      assert buf[n..] == [buf[n]] + buf[n + 1..];
      n := n + 1;
    }
  }

  // ---------------------------------------------------------------------------
  // vsprintf
  // ---------------------------------------------------------------------------

  /** All that vsprintf leaves at the front of the buffer: its output, and strcpy's NUL if it is still there. */
  function Written(format: seq<Byte>, args: seq<Arg>): seq<Byte>
    requires Needs(format) <= |args|
  {
    Output(format, args) + if Terminated(format, args, false) then [NUL] else []
  }

  predicate CStrings(args: seq<Arg>)
  {
    forall i :: 0 <= i < |args| ==> CString(args[i].text)
  }

  /** The character at an index of a C string. */
  function CharAt(s: seq<Byte>, i: nat): Byte
    requires i <= |s|
  {
    if i < |s| then s[i] else NUL
  }

  /** The case of the switch for %d. */
  method ConvertDecimal(w: Word32, buf: array<Byte>, pos: nat) returns (next: nat)
    requires pos + |Decimal(w)| <= buf.Length
    modifies buf
    ensures next == pos + |Decimal(w)| && Placed(buf[..], old(buf[..]), pos, Decimal(w))
  {
    ghost var was := buf[..];
    if w >= 0x8000_0000 {
      next := PutByte(buf, pos, MINUS);
      ghost var before := buf[..];
      next := Itoa(Negated(w), buf, next, 10);
      PlacedTwice(was, before, buf[..], pos, [MINUS], Digits(Negated(w), 10));
    } else {
      next := Itoa(w, buf, pos, 10);
    }
  }

  /** One conversion: the case of the switch for `ch`, its argument, and the new end of the output. */
  method Convert(ch: Byte, a: Arg, buf: array<Byte>, pos: nat) returns (next: nat)
    requires Specifier(ch) && CString(a.text) && pos + |Converted(ch, a)| < buf.Length
    modifies buf
    ensures next == pos + |Converted(ch, a)|
    ensures Placed(buf[..], old(buf[..]), pos, Converted(ch, a) + if ch == LOWER_S then [NUL] else [])
    ensures Says(ch, a, buf[pos..next])
  {
    ConversionSays(ch, a);
    assert ch != LOWER_S ==> Converted(ch, a) + [] == Converted(ch, a);
    if ch == LOWER_X {
      next := Itoa(a.word, buf, pos, 16);
    } else if ch == LOWER_S {
      Strcpy(buf, pos, a.text);
      next := pos + |a.text|;
    } else if ch == LOWER_C {
      next := PutByte(buf, pos, a.word % 256);
    } else {
      next := ConvertDecimal(a.word, buf, pos);
    }
  }

  /** Where a NUL stops strlen: in the output, or at its end, or somewhere in the memory behind. */
  predicate Stops(buf: seq<Byte>, format: seq<Byte>, args: seq<Arg>)
    requires Needs(format) <= |args|
  {
    NUL in Written(format, args) || (|Output(format, args)| <= |buf| && NUL in buf[|Output(format, args)|..])
  }

  lemma Suffixes(format: seq<Byte>, i: nat)
    requires i < |format|
    ensures format[i..][0] == format[i] && format[i..][1..] == format[i + 1..]
    ensures i + 1 < |format| ==> |format[i..]| > 1 && format[i..][1] == format[i + 1] && format[i..][2..] == format[i + 2..]
    ensures i + 1 == |format| ==> |format[i..]| == 1
  {
  }

  /** Part of the format is done: `out` is written, the rest is to come. */
  predicate Halfway(format: seq<Byte>, args: seq<Arg>, i: nat, a: nat, out: seq<Byte>, mark: bool)
    requires Needs(format) <= |args|
  {
    && i <= |format| && a <= |args| && Needs(format[i..]) <= |args| - a
    && Output(format, args) == out + Output(format[i..], args[a..])
    && Terminated(format, args, false) == Terminated(format[i..], args[a..], mark)
  }

  /** A character that is not `%` is written. */
  lemma TextOn(format: seq<Byte>, args: seq<Arg>, i: nat, a: nat, out: seq<Byte>, mark: bool)
    requires Needs(format) <= |args| && Halfway(format, args, i, a, out, mark) && i < |format| && format[i] != PERCENT
    ensures Halfway(format, args, i + 1, a, out + [format[i]], false) && |out| < |Output(format, args)|
  {
    Suffixes(format, i);
    var rest := Output(format[i + 1..], args[a..]);
    assert Output(format[i..], args[a..]) == [format[i]] + rest;
    assert out + ([format[i]] + rest) == out + [format[i]] + rest;
  }

  /** A specifier takes an argument. */
  lemma SpecifierOn(format: seq<Byte>, args: seq<Arg>, i: nat, a: nat, out: seq<Byte>, mark: bool)
    requires Needs(format) <= |args| && Halfway(format, args, i, a, out, mark)
    requires i + 1 < |format| && format[i] == PERCENT && Specifier(format[i + 1])
    ensures a < |args| && |out| + |Converted(format[i + 1], args[a])| <= |Output(format, args)|
    ensures Halfway(format, args, i + 2, a + 1, out + Converted(format[i + 1], args[a]), format[i + 1] == LOWER_S)
  {
    Suffixes(format, i);
    assert args[a..][0] == args[a] && args[a..][1..] == args[a + 1..];
    var s, rest := Converted(format[i + 1], args[a]), Output(format[i + 2..], args[a + 1..]);
    assert Output(format[i..], args[a..]) == s + rest;
    assert out + (s + rest) == out + s + rest;
  }

  /** Any other `%` writes nothing. */
  lemma PercentOn(format: seq<Byte>, args: seq<Arg>, i: nat, a: nat, out: seq<Byte>, mark: bool)
    requires Needs(format) <= |args| && Halfway(format, args, i, a, out, mark)
    requires i < |format| && format[i] == PERCENT && (i + 1 < |format| ==> !Specifier(format[i + 1]))
    ensures Halfway(format, args, i + 1, a, out, mark)
  {
    Suffixes(format, i);
    assert Output(format[i..], args[a..]) == Output(format[i + 1..], args[a..]);
  }

  /** What has been written so far, and what the buffer holds behind it. */
  predicate Progress(buf: seq<Byte>, was: seq<Byte>, out: seq<Byte>, mark: bool)
  {
    var end := |out| + (if mark then 1 else 0);
    |buf| == |was| && end <= |buf| && buf == out + (if mark then [NUL] else []) + was[end..]
  }

  /** Writing goes on: what is placed behind the output covers the NUL that was there. */
  lemma ProgressOn(was: seq<Byte>, buf: seq<Byte>, now: seq<Byte>, out: seq<Byte>, mark: bool, s: seq<Byte>, mark': bool)
    requires Progress(buf, was, out, mark) && Placed(now, buf, |out|, s + if mark' then [NUL] else []) && (s != [] || mark')
    ensures Progress(now, was, out + s, mark')
  {
    var t := s + if mark' then [NUL] else [];
    assert buf[..|out|] == out;
    Behind(buf, was, out + if mark then [NUL] else [], |out| + |t|);
    assert now == out + t + was[|out| + |t|..];
  }

  lemma Behind(buf: seq<Byte>, was: seq<Byte>, front: seq<Byte>, k: nat)
    requires |front| <= k <= |buf| == |was| && buf == front + was[|front|..]
    ensures buf[k..] == was[k..]
  {
    assert buf[k..] == was[|front|..][k - |front|..];
  }

  /** vsprintf; what it returns is the length of the string in the buffer. */
  method Vsprintf(buf: array<Byte>, format: seq<Byte>, args: seq<Arg>) returns (n: nat)
    requires CString(format) && Needs(format) <= |args| && CStrings(args)
    requires |Output(format, args)| < buf.Length && Stops(buf[..], format, args)
    modifies buf
    ensures buf[..] == Written(format, args) + old(buf[|Written(format, args)|..])
    ensures n < buf.Length && buf[n] == NUL && CString(buf[..n])
    ensures n == |Output(format, args)| <==>
            CString(Output(format, args)) && (Terminated(format, args, false) || old(buf[|Output(format, args)|]) == NUL)
  {
    ghost var was := buf[..];
    Format(buf, format, args);
    n := Strlen(buf);
    LengthOf(buf[..], was, Output(format, args), Terminated(format, args, false), n);
  }

  /** The string ends with the output just when nothing in it stops strlen and something behind it does. */
  lemma LengthOf(now: seq<Byte>, was: seq<Byte>, out: seq<Byte>, mark: bool, n: nat)
    requires Progress(now, was, out, mark) && |out| < |now| && n < |now| && now[n] == NUL && CString(now[..n])
    ensures n == |out| <==> CString(out) && (mark || was[|out|] == NUL)
    ensures n == |out| ==> now[..n] == out
  {
    assert now[..|out|] == out;
    assert now[|out|] == if mark then NUL else was[|out|];
    if n < |out| {
      assert out[n] == NUL;
    }
    if |out| < n {
      assert now[..n][|out|] == now[|out|];
    }
  }

  /** A character of the format goes to the buffer. */
  method PutText(buf: array<Byte>, pos: nat, ch: Byte, ghost was: seq<Byte>, ghost out: seq<Byte>, ghost mark: bool)
    returns (next: nat)
    requires pos == |out| < buf.Length && Progress(buf[..], was, out, mark)
    modifies buf
    ensures next == |out + [ch]| && Progress(buf[..], was, out + [ch], false)
  {
    ghost var before := buf[..];
    next := PutByte(buf, pos, ch);
    ProgressOn(was, before, buf[..], out, mark, [ch], false);
  }

  /** An argument goes to the buffer. */
  method PutArg(buf: array<Byte>, pos: nat, ch: Byte, a: Arg, ghost was: seq<Byte>, ghost out: seq<Byte>, ghost mark: bool)
    returns (next: nat)
    requires Specifier(ch) && CString(a.text) && pos == |out| && pos + |Converted(ch, a)| < buf.Length
    requires Progress(buf[..], was, out, mark)
    modifies buf
    ensures next == |out + Converted(ch, a)| && Progress(buf[..], was, out + Converted(ch, a), ch == LOWER_S)
  {
    ghost var before := buf[..];
    next := Convert(ch, a, buf, pos);
    ProgressOn(was, before, buf[..], out, mark, Converted(ch, a), ch == LOWER_S);
  }

  /** The loop of vsprintf. */
  method Format(buf: array<Byte>, format: seq<Byte>, args: seq<Arg>)
    requires CString(format) && Needs(format) <= |args| && CStrings(args) && |Output(format, args)| < buf.Length
    modifies buf
    ensures Progress(buf[..], old(buf[..]), Output(format, args), Terminated(format, args, false))
  {
    ghost var was := buf[..];
    ghost var out, mark := [], false;
    var pos, i, a := 0, 0, 0;
    var ch := CharAt(format, 0);
    Start(format, args);
    while ch != NUL
      invariant Halfway(format, args, i, a, out, mark) && ch == CharAt(format, i)
      invariant pos == |out| && Progress(buf[..], was, out, mark)
      decreases |format| - i
    {
      if ch != PERCENT {
        TextOn(format, args, i, a, out, mark);
        pos := PutText(buf, pos, ch, was, out, mark);
        out, mark := out + [ch], false;
        i := i + 1;
        ch := CharAt(format, i);
      } else {
        i := i + 1;
        ch := CharAt(format, i);
        if Specifier(ch) {
          SpecifierOn(format, args, i - 1, a, out, mark);
          pos := PutArg(buf, pos, ch, args[a], was, out, mark);
          out, mark := out + Converted(ch, args[a]), ch == LOWER_S;
          a := a + 1;
          i := i + 1;
          ch := CharAt(format, i);
        } else {
          PercentOn(format, args, i - 1, a, out, mark);
        }
      }
    }
    Finish(format, args, i, a, out, mark);
  }

  lemma Start(format: seq<Byte>, args: seq<Arg>)
    requires Needs(format) <= |args|
    ensures Halfway(format, args, 0, 0, [], false)
  {
    assert format[0..] == format && args[0..] == args;
  }

  lemma Finish(format: seq<Byte>, args: seq<Arg>, i: nat, a: nat, out: seq<Byte>, mark: bool)
    requires CString(format) && Needs(format) <= |args| && Halfway(format, args, i, a, out, mark) && CharAt(format, i) == NUL
    ensures out == Output(format, args) && mark == Terminated(format, args, false)
  {
    assert i == |format| && format[i..] == [];
  }

  // ---------------------------------------------------------------------------
  // What the output means
  // ---------------------------------------------------------------------------

  /**
    A format taken apart: plain characters, conversions, and `%` signs that convert nothing: at the end, before
    another `%`, or before a letter that is no specifier.
   */
  datatype Piece = Text(ch: Byte) | Conversion(ch: Byte) | Stray

  /** These pieces, spelt out, are read as these pieces. */
  predicate WellSpelt(ps: seq<Piece>)
  {
    ps == [] || (Fits(ps[0], ps[1..]) && WellSpelt(ps[1..]))
  }

  predicate Fits(p: Piece, rest: seq<Piece>)
  {
    match p
    case Text(ch) => ch != PERCENT && ch != NUL
    case Conversion(ch) => Specifier(ch)
    case Stray => rest != [] && rest[0].Text? ==> !Specifier(rest[0].ch)
  }

  function Spell(p: Piece): seq<Byte>
  {
    match p
    case Text(ch) => [ch]
    case Conversion(ch) => [PERCENT, ch]
    case Stray => [PERCENT]
  }

  function SpellAll(ps: seq<Piece>): seq<Byte>
  {
    if ps == [] then [] else Spell(ps[0]) + SpellAll(ps[1..])
  }

  function Conversions(ps: seq<Piece>): nat
  {
    if ps == [] then 0 else (if ps[0].Conversion? then 1 else 0) + Conversions(ps[1..])
  }

  /** How a format is read. */
  function PiecesOf(format: seq<Byte>): seq<Piece>
  {
    if format == [] then []
    else if format[0] != PERCENT then [Text(format[0])] + PiecesOf(format[1..])
    else if |format| > 1 && Specifier(format[1]) then [Conversion(format[1])] + PiecesOf(format[2..])
    else [Stray] + PiecesOf(format[1..])
  }

  /** Every format is the spelling of some pieces. */
  lemma {:induction false} EveryFormatIsSpelt(format: seq<Byte>)
    requires CString(format)
    ensures WellSpelt(PiecesOf(format)) && SpellAll(PiecesOf(format)) == format
    ensures format != [] ==> PiecesOf(format) != []
    ensures PiecesOf(format) != [] && PiecesOf(format)[0].Text? ==> format != [] && format[0] == PiecesOf(format)[0].ch
    decreases |format|
  {
    if format != [] {
      var n := if format[0] == PERCENT && |format| > 1 && Specifier(format[1]) then 2 else 1;
      EveryFormatIsSpelt(format[n..]);
      SpeltOn(format, n, PiecesOf(format)[0], PiecesOf(format[n..]));
    }
  }

  lemma SpeltOn(format: seq<Byte>, n: nat, p: Piece, rest: seq<Piece>)
    requires CString(format) && 0 < n <= |format| && Spell(p) == format[..n]
    requires WellSpelt(rest) && SpellAll(rest) == format[n..] && Fits(p, rest)
    ensures WellSpelt([p] + rest) && SpellAll([p] + rest) == format
  {
    assert ([p] + rest)[1..] == rest && format == format[..n] + format[n..];
  }

  /** And of no others. */
  lemma {:induction false} SpellingIsUnique(ps: seq<Piece>)
    requires WellSpelt(ps)
    ensures PiecesOf(SpellAll(ps)) == ps
    decreases |ps|
  {
    if ps != [] {
      SpellingUnfolds(ps);
      SpellingIsUnique(ps[1..]);
      assert ps == [ps[0]] + ps[1..];
    }
  }

  /** A spelling begins with its first piece, and a stray `%` is not followed by a specifier. */
  lemma SpellingUnfolds(ps: seq<Piece>)
    requires WellSpelt(ps) && ps != []
    ensures WellSpelt(ps[1..])
    ensures var f := SpellAll(ps);
            && f == Spell(ps[0]) + SpellAll(ps[1..]) && f[|Spell(ps[0])|..] == SpellAll(ps[1..])
            && match ps[0]
               case Text(ch) => f[0] == ch != PERCENT
               case Conversion(ch) => |f| > 1 && f[0] == PERCENT && f[1] == ch && Specifier(ch)
               case Stray => f[0] == PERCENT && (|f| > 1 ==> !Specifier(f[1]))
  {
    var rest := ps[1..];
    if rest != [] { assert SpellAll(rest)[0] == Spell(rest[0])[0]; }
  }

  /**
    What the bytes a conversion wrote say about its argument: a character is the low byte, a string is the string,
    a number is a numeral that reads back as the argument, signed for %d.
   */
  predicate Says(ch: Byte, a: Arg, s: seq<Byte>)
  {
    if ch == LOWER_C then |s| == 1 && s[0] == a.word % 256
    else if ch == LOWER_S then s == a.text
    else if ch == LOWER_X then Numeral(s, 16) && Parse(s, 16) == a.word
    else
      && s != [] && (s[0] == MINUS <==> Signed(a.word) < 0) && ParseSigned(s) == Signed(a.word)
      && Numeral(if s[0] == MINUS then s[1..] else s, 10)
  }

  lemma ConversionSays(ch: Byte, a: Arg)
    requires Specifier(ch)
    ensures Says(ch, a, Converted(ch, a))
  {
    if ch == LOWER_X {
      PrintThenParse(a.word, 16);
    } else if ch != LOWER_S && ch != LOWER_C {
      DecimalReadsBack(a.word);
    }
  }

  /** Only one byte string says it. */
  lemma SaidOneWay(ch: Byte, a: Arg, s: seq<Byte>)
    requires Specifier(ch) && Says(ch, a, s)
    ensures s == Converted(ch, a)
  {
    if ch == LOWER_X {
      ParseThenPrint(s, 16);
    } else if ch == LOWER_D {
      var digits := if s[0] == MINUS then s[1..] else s;
      ParseThenPrint(digits, 10);
      SaidDecimal(a.word, s, digits);
    }
  }

  lemma SaidDecimal(w: Word32, s: seq<Byte>, digits: seq<Byte>)
    requires s != [] && (s[0] == MINUS <==> Signed(w) < 0) && ParseSigned(s) == Signed(w)
    requires digits == (if s[0] == MINUS then s[1..] else s) && Digits(Parse(digits, 10), 10) == digits
    ensures s == Decimal(w)
  {
    SaidValue(w, s, digits, Parse(digits, 10));
    if s[0] == MINUS { assert s == [MINUS] + digits; }
  }

  lemma SaidValue(w: Word32, s: seq<Byte>, digits: seq<Byte>, v: nat)
    requires s != [] && (s[0] == MINUS <==> Signed(w) < 0) && ParseSigned(s) == Signed(w)
    requires digits == (if s[0] == MINUS then s[1..] else s) && v == Parse(digits, 10)
    ensures v == if w >= 0x8000_0000 then Negated(w) else w
  {
  }

  /** The segments of an output, one for each piece of the format, each conversion with the next argument. */
  predicate SaysAll(ps: seq<Piece>, args: seq<Arg>, segs: seq<seq<Byte>>)
    requires Conversions(ps) <= |args|
  {
    |segs| == |ps| &&
    (ps == [] ||
      match ps[0]
      case Text(ch) => segs[0] == [ch] && SaysAll(ps[1..], args, segs[1..])
      case Conversion(ch) => Says(ch, args[0], segs[0]) && SaysAll(ps[1..], args[1..], segs[1..])
      case Stray => segs[0] == [] && SaysAll(ps[1..], args, segs[1..]))
  }

  function Concat(segs: seq<seq<Byte>>): seq<Byte>
  {
    if segs == [] then [] else segs[0] + Concat(segs[1..])
  }

  /**
    Whatever the format, vsprintf's output is one segment after the other: a plain character as it is, nothing for
    a stray `%`, and for each conversion bytes that read back as its argument.
   */
  lemma {:induction false} OutputIsRendered(ps: seq<Piece>, args: seq<Arg>) returns (segs: seq<seq<Byte>>)
    requires WellSpelt(ps) && Conversions(ps) <= |args|
    ensures Needs(SpellAll(ps)) == Conversions(ps)
    ensures SaysAll(ps, args, segs) && Output(SpellAll(ps), args) == Concat(segs)
    decreases |ps|
  {
    if ps == [] {
      segs := [];
    } else {
      SpellingUnfolds(ps);
      var rest := OutputIsRendered(ps[1..], if ps[0].Conversion? then args[1..] else args);
      var seg := match ps[0]
                 case Text(ch) => [ch]
                 case Conversion(ch) => Converted(ch, args[0])
                 case Stray => [];
      segs := [seg] + rest;
      if ps[0].Conversion? { ConversionSays(ps[0].ch, args[0]); }
    }
  }

  /** The format and the arguments determine the segments: nothing else reads back like that. */
  lemma {:induction false} SegmentsAreDetermined(ps: seq<Piece>, args: seq<Arg>, segs: seq<seq<Byte>>, segs': seq<seq<Byte>>)
    requires WellSpelt(ps) && Conversions(ps) <= |args| && SaysAll(ps, args, segs) && SaysAll(ps, args, segs')
    ensures segs == segs'
    decreases |ps|
  {
    if ps != [] {
      SpellingUnfolds(ps);
      SegmentsAreDetermined(ps[1..], if ps[0].Conversion? then args[1..] else args, segs[1..], segs'[1..]);
      if ps[0].Conversion? {
        SaidOneWay(ps[0].ch, args[0], segs[0]);
        SaidOneWay(ps[0].ch, args[0], segs'[0]);
      }
      assert segs == [segs[0]] + segs[1..] && segs' == [segs'[0]] + segs'[1..];
    }
  }

  /** The int32_t in a slot. */
  function Signed(w: Word32): int
  {
    if w >= 0x8000_0000 then w - TWO_32 else w
  }

  function ParseSigned(s: seq<Byte>): int
  {
    if s != [] && s[0] == MINUS then 0 - Parse(s[1..], 10) else Parse(s, 10)
  }

  /** %d reads back as the argument, for every int32_t: the smallest is its own negation, read unsigned. */
  lemma DecimalReadsBack(w: Word32)
    ensures ParseSigned(Decimal(w)) == Signed(w)
    ensures Numeral(if w >= 0x8000_0000 then Decimal(w)[1..] else Decimal(w), 10)
    ensures w >= 0x8000_0000 <==> Decimal(w)[0] == MINUS
  {
    DecimalOf(w, Decimal(w), Digits(if w >= 0x8000_0000 then Negated(w) else w, 10), 10);
  }

  lemma DecimalOf(w: Word32, d: seq<Byte>, s: seq<Byte>, ten: nat)
    requires ten == 10 && s == Digits(if w >= 0x8000_0000 then Negated(w) else w, ten)
    requires d == if w >= 0x8000_0000 then [MINUS] + s else s
    ensures ParseSigned(d) == Signed(w) && Numeral(if w >= 0x8000_0000 then d[1..] else d, ten)
    ensures w >= 0x8000_0000 <==> d[0] == MINUS
  {
    var v := if w >= 0x8000_0000 then Negated(w) else w;
    assert Signed(w) == if w >= 0x8000_0000 then 0 - v else v;
    PrintThenParse(v, ten);
    SignOf(d, s, v, w >= 0x8000_0000);
  }

  lemma SignOf(d: seq<Byte>, s: seq<Byte>, v: nat, negative: bool)
    requires Numeral(s, 10) && Parse(s, 10) == v && d == if negative then [MINUS] + s else s
    ensures ParseSigned(d) == (if negative then 0 - v else v) && (negative ==> d[1..] == s) && (negative <==> d[0] == MINUS)
  {
    SignInFront(s);
    assert DigitValue(s[0]) < 10;
  }

  lemma SignInFront(s: seq<Byte>)
    requires Numeral(s, 10)
    ensures ParseSigned(s) == Parse(s, 10)
    ensures ([MINUS] + s)[0] == MINUS && ([MINUS] + s)[1..] == s && ParseSigned([MINUS] + s) == 0 - Parse(s, 10)
  {
    assert DigitValue(s[0]) < 10;
  }

  /** %x reads back as the argument, unsigned. */
  lemma HexReadsBack(w: Word32)
    ensures Parse(Converted(LOWER_X, Arg(w, [])), 16) == w && Numeral(Converted(LOWER_X, Arg(w, [])), 16)
  {
    PrintThenParse(w, 16);
  }

  /** No format makes vsprintf print a `%`: only a string or character argument that holds one does. */
  lemma {:induction false} PercentOnlyFromArguments(format: seq<Byte>, args: seq<Arg>)
    requires Needs(format) <= |args|
    requires forall i :: 0 <= i < |args| ==> PERCENT !in args[i].text && args[i].word % 256 != PERCENT
    ensures PERCENT !in Output(format, args)
    decreases |format|
  {
    if format != [] {
      if format[0] != PERCENT {
        PercentOnlyFromArguments(format[1..], args);
      } else if |format| > 1 && Specifier(format[1]) {
        NoPercentIn(format[1], args[0]);
        PercentOnlyFromArguments(format[2..], args[1..]);
      } else {
        PercentOnlyFromArguments(format[1..], args);
      }
    }
  }

  lemma NoPercentIn(ch: Byte, a: Arg)
    requires Specifier(ch) && PERCENT !in a.text && a.word % 256 != PERCENT
    ensures PERCENT !in Converted(ch, a)
  {
    NumeralHasNoPercent(a.word, 16);
    NumeralHasNoPercent(a.word, 10);
    NumeralHasNoPercent(Negated(a.word), 10);
  }

  lemma NumeralHasNoPercent(v: nat, radix: nat)
    requires 2 <= radix <= 36
    ensures PERCENT !in Digits(v, radix)
  {
    DigitsAreNumeral(v, radix);
    assert DigitValue(PERCENT) == 36;
  }
}
