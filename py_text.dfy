/** The Python string built-ins that LogProcessor.process_logs relies on:
    str.strip(), str.split(';'), str.upper() and int() on a text field.
    Only the ASCII part of Python's behaviour is modelled (see README). */
module PyText {
  import opened Wrappers
  import opened Decimal

  /** The ASCII characters str.isspace() accepts: space, \t \n \v \f \r and the
      four separators \x1c to \x1f. */
  predicate IsSpace(c: char) {
    c == ' ' || 9 <= c as int <= 13 || 28 <= c as int <= 31
  }

  function TrimStart(s: string): (r: string)
    ensures |r| <= |s| && r == s[|s| - |r|..]
    ensures r == [] || !IsSpace(r[0])
    ensures forall i :: 0 <= i < |s| - |r| ==> IsSpace(s[i])
  {
    if s != [] && IsSpace(s[0]) then TrimStart(s[1..]) else s
  }

  function TrimEnd(s: string): (r: string)
    ensures |r| <= |s| && r == s[..|r|]
    ensures r == [] || !IsSpace(r[|r| - 1])
    ensures forall i :: |r| <= i < |s| ==> IsSpace(s[i])
  {
    if s != [] && IsSpace(s[|s| - 1]) then TrimEnd(s[..|s| - 1]) else s
  }

  /** str.strip(): drop leading and trailing whitespace. */
  function Strip(s: string): string {
    TrimEnd(TrimStart(s))
  }

  /** The stripped text has no whitespace at either end, and it is empty exactly
      when the text is all whitespace. */
  lemma StripEnds(s: string)
    ensures var r := Strip(s);
      && (r == [] || (!IsSpace(r[0]) && !IsSpace(r[|r| - 1])))
      && (r == [] <==> forall i :: 0 <= i < |s| ==> IsSpace(s[i]))
  {
  }

  function Occurrences(s: string, c: char): nat {
    if s == [] then 0 else (if s[0] == c then 1 else 0) + Occurrences(s[1..], c)
  }

  /** str.split(sep): the maximal runs between separators, empty runs included. */
  function Split(s: string, sep: char): (fields: seq<string>)
    ensures |fields| == Occurrences(s, sep) + 1
    ensures forall i :: 0 <= i < |fields| ==> sep !in fields[i]
  {
    if s == [] then [[]]
    else
      var rest := Split(s[1..], sep);
      if s[0] == sep then [[]] + rest else [[s[0]] + rest[0]] + rest[1..]
  }

  /** sep.join(fields), the inverse of Split. */
  function JoinWith(fields: seq<string>, sep: char): string
    requires |fields| >= 1
  {
    if |fields| == 1 then fields[0] else fields[0] + [sep] + JoinWith(fields[1..], sep)
  }

  function UpperChar(c: char): char {
    if 'a' <= c <= 'z' then (c as int - 32) as char else c
  }

  /** str.upper() on ASCII text. */
  function Upper(s: string): (r: string)
    ensures |r| == |s|
    ensures forall i :: 0 <= i < |s| ==> r[i] == UpperChar(s[i])
  {
    if s == [] then [] else [UpperChar(s[0])] + Upper(s[1..])
  }

  /** A decimal integer literal as int() reads it: digits, with single underscores
      allowed between two digits. Read from the back: a digit, preceded by nothing,
      by a digit run, or by an underscore and a digit run. */
  predicate IsDigitRun(s: string)
    decreases |s|
  {
    && |s| >= 1
    && IsDigitChar(s[|s| - 1])
    && (|s| == 1
        || if s[|s| - 2] == '_' then |s| >= 3 && IsDigitRun(s[..|s| - 2])
           else IsDigitRun(s[..|s| - 1]))
  }

  /** The number a digit run stands for; underscores carry no value. */
  function DigitRunValue(s: string): nat
    requires IsDigitRun(s)
    decreases |s|
  {
    var d := CharValue(s[|s| - 1]);
    if |s| == 1 then d
    else if s[|s| - 2] != '_' then 10 * DigitRunValue(s[..|s| - 1]) + d
    else 10 * DigitRunValue(s[..|s| - 2]) + d
  }

  /** int(text): surrounding whitespace is ignored, an optional sign, then a digit run;
      anything else is the ValueError case, None here. */
  function ParseInt(text: string): Option<int> {
    ParseSigned(Strip(text))
  }

  /** An optional sign followed by a digit run. */
  function ParseSigned(t: string): Option<int> {
    if |t| >= 1 && t[0] == '-' then
      match ParseDigits(t[1..])
      case None => None
      case Some(v) => Some(-v)
    else if |t| >= 1 && t[0] == '+' then ParseDigits(t[1..])
    else ParseDigits(t)
  }

  function ParseDigits(s: string): Option<int> {
    if IsDigitRun(s) then Some(DigitRunValue(s)) else None
  }

  /** Splitting and joining again on the same separator gives the text back. */
  lemma {:induction false} SplitJoin(s: string, sep: char)
    ensures JoinWith(Split(s, sep), sep) == s
    decreases |s|
  {
    if s != [] {
      var rest := Split(s[1..], sep);
      SplitJoin(s[1..], sep);
      if s[0] == sep {
        assert Split(s, sep)[1..] == rest;
      } else if |rest| == 1 {
        assert Split(s, sep) == [[s[0]] + rest[0]];
      } else {
        assert Split(s, sep)[1..] == rest[1..];
        assert JoinWith(rest, sep) == rest[0] + [sep] + JoinWith(rest[1..], sep);
      }
    }
  }

  /** Text with no space at either end is its own strip. */
  lemma {:induction false} StripUnspaced(s: string)
    requires s != [] && !IsSpace(s[0]) && !IsSpace(s[|s| - 1])
    ensures Strip(s) == s
  {
  }

  /** The upper-case of a two-letter status is "OK" exactly for ok, Ok, oK and OK. */
  lemma UpperIsOk(status: string)
    ensures Upper(status) == "OK" <==> status in {"OK", "Ok", "oK", "ok"}
  {
    if Upper(status) == "OK" {
      assert |status| == 2;
      assert UpperChar(status[0]) == 'O' && UpperChar(status[1]) == 'K';
      assert status[0] in {'O', 'o'} && status[1] in {'K', 'k'};
      assert status == [status[0], status[1]];
    }
  }

  lemma {:induction false} DigitRunValueOfDecimal(n: nat)
    ensures IsDigitRun(DecimalString(n)) && DigitRunValue(DecimalString(n)) == n
    decreases n
  {
    var s := DecimalString(n);
    if n >= 10 {
      DigitRunValueOfDecimal(n / 10);
      assert s[..|s| - 1] == DecimalString(n / 10);
    }
  }

  /** int() reads an unsigned digit run as its value. */
  lemma {:induction false} ParseUnsigned(t: string, m: nat)
    requires IsDigitRun(t) && IsDigitChar(t[0]) && DigitRunValue(t) == m
    ensures ParseInt(t) == Some(m)
  {
    StripUnspaced(t);
  }

  /** int() reads a minus sign and a digit run as the negated value. */
  lemma {:induction false} ParseNegative(d: string, m: nat)
    requires IsDigitRun(d) && DigitRunValue(d) == m
    ensures ParseInt("-" + d) == Some(-(m as int))
  {
    var t := "-" + d;
    assert t[|t| - 1] == d[|d| - 1];
    StripUnspaced(t);
    assert t[1..] == d;
  }

  /** int(str(n)) == n. */
  lemma {:induction false} ParseIntText(n: int)
    ensures ParseInt(IntText(n)) == Some(n)
  {
    var m: nat := if n < 0 then -n else n;
    var d := DecimalString(m);
    DigitRunValueOfDecimal(m);
    if n < 0 {
      ParseNegative(d, m);
    } else {
      ParseUnsigned(d, m);
    }
  }
}
