/**
 * The character streams the serialisers write to and read from
 * (std::stringstream): std::getline, formatted extraction of a whitespace
 * separated word (operator>>), the decimal rendering of integers
 * (operator<<) and std::atoi.
 */
module Text {
  import opened Wrappers

  /** The text not yet read, and the end-of-file flag. */
  datatype Stream = Stream(rest: string, eof: bool)

  /** A stream positioned at the start of text. */
  function Open(text: string): (st: Stream)
    ensures st.rest == text && !st.eof
  {
    Stream(text, false)
  }

  /** The position of the first c in s, or |s| when there is none. */
  function IndexOf(s: string, c: char): (k: nat)
    ensures k <= |s|
    ensures k < |s| ==> s[k] == c
    ensures forall i :: 0 <= i < k ==> s[i] != c
  {
    if s == [] then 0
    else if s[0] == c then 0
    else 1 + IndexOf(s[1..], c)
  }

  /**
   * std::getline.  A stream already at end of file fails and leaves the
   * target string unchanged (None).  Otherwise the characters up to the next
   * '\n' are the line and the '\n' is consumed; running out of text first
   * sets the end-of-file flag.
   */
  function Getline(st: Stream): (r: (Option<string>, Stream))
    ensures r.0.Some? <==> !st.eof
    ensures r.0.Some? ==> '\n' !in r.0.value
    ensures st.eof ==> r.1 == st
    ensures !st.eof && !r.1.eof ==> |r.1.rest| < |st.rest|
  {
    if st.eof then (None, st)
    else
      var k := IndexOf(st.rest, '\n');
      if k < |st.rest| then (Some(st.rest[..k]), Stream(st.rest[k + 1..], false))
      else (Some(st.rest), Stream([], true))
  }

  /** getline into a string variable: a failed read leaves its old contents. */
  function ReadInto(st: Stream, target: string): (r: (string, Stream))
    ensures r.1 == Getline(st).1
    ensures r.0 == if Getline(st).0.Some? then Getline(st).0.value else target
  {
    var (line, rest) := Getline(st);
    (if line.Some? then line.value else target, rest)
  }

  /** A line written with its '\n' is read back by getline, and the stream goes on after it. */
  lemma GetlineLine(line: string, tail: string)
    requires '\n' !in line
    ensures Getline(Open(line + "\n" + tail)) == (Some(line), Open(tail))
  {
    var s := line + "\n" + tail;
    var k := IndexOf(s, '\n');
    assert s[|line|] == '\n';
    assert forall i :: 0 <= i < |line| ==> s[i] == line[i];
    assert k == |line|;
    assert s[..k] == line;
    assert s[k + 1..] == tail;
  }

  /** The characters isspace accepts. */
  predicate IsSpace(c: char) {
    c == ' ' || c == '\t' || c == '\n' || c == 11 as char || c == 12 as char || c == '\r'
  }

  predicate IsDigit(c: char) {
    '0' <= c <= '9'
  }

  /** A non-empty piece of text without white space: what operator>> reads as one field. */
  predicate IsWord(w: string) {
    |w| > 0 && forall i :: 0 <= i < |w| ==> !IsSpace(w[i])
  }

  /** s without the white space at its head. */
  function SkipSpace(s: string): (t: string)
    ensures |t| <= |s| && t == s[|s| - |t|..]
    ensures t != [] ==> !IsSpace(t[0])
  {
    if |s| > 0 && IsSpace(s[0]) then SkipSpace(s[1..]) else s
  }

  /** s split before its first white space. */
  function TakeWord(s: string): (r: (string, string))
    ensures r.0 + r.1 == s
    ensures forall i :: 0 <= i < |r.0| ==> !IsSpace(r.0[i])
    ensures r.1 != [] ==> IsSpace(r.1[0])
  {
    if |s| > 0 && !IsSpace(s[0]) then
      var (w, rest) := TakeWord(s[1..]);
      assert [s[0]] + w + rest == s;
      ([s[0]] + w, rest)
    else ([], s)
  }

  /**
   * The field operator>> extracts: leading white space is skipped one
   * character at a time and the word up to the next white space is read.
   * With nothing left to read the extraction fails; a word that runs to the
   * end of the text sets eof.
   */
  function ReadWord(st: Stream): (r: (Option<string>, Stream))
    ensures r.0.Some? ==> IsWord(r.0.value)
    decreases |st.rest|
  {
    if st.eof then (None, st)
    else if |st.rest| == 0 then (None, Stream([], true))
    else if IsSpace(st.rest[0]) then ReadWord(Stream(st.rest[1..], false))
    else
      var (w, rest) := TakeWord(st.rest);
      (Some(w), Stream(rest, |rest| == 0))
  }

  /** A word followed by white space is read back whole, leading white space or not. */
  lemma {:induction false} ReadWordBack(pre: string, w: string, sep: char, tail: string)
    requires forall i :: 0 <= i < |pre| ==> IsSpace(pre[i])
    requires IsWord(w) && IsSpace(sep)
    ensures ReadWord(Open(pre + (w + ([sep] + tail)))) == (Some(w), Open([sep] + tail))
    decreases |pre|
  {
    var s := w + ([sep] + tail);
    if pre == [] {
      assert pre + s == s;
      TakeWordPrefix(w, [sep] + tail);
    } else {
      assert (pre + s)[1..] == pre[1..] + s;
      ReadWordBack(pre[1..], w, sep, tail);
    }
  }

  lemma {:induction false} TakeWordPrefix(w: string, s: string)
    requires forall i :: 0 <= i < |w| ==> !IsSpace(w[i])
    requires s != [] && IsSpace(s[0])
    ensures TakeWord(w + s) == (w, s)
    decreases |w|
  {
    if w != [] {
      assert (w + s)[1..] == w[1..] + s;
      TakeWordPrefix(w[1..], s);
      assert [w[0]] + w[1..] == w;
    } else {
      assert w + s == s;
    }
  }

  /** The decimal digit d. */
  function DigitChar(d: nat): (c: char)
    requires d < 10
    ensures IsDigit(c) && !IsSpace(c)
  {
    ('0' as int + d) as char
  }

  function DigitValue(c: char): (d: nat)
    requires IsDigit(c)
    ensures d < 10
  {
    c as int - '0' as int
  }

  /** A string of decimal digits only, checked from its last character back. */
  predicate AllDigits(s: string)
    decreases |s|
  {
    |s| == 0 || (AllDigits(s[..|s| - 1]) && IsDigit(s[|s| - 1]))
  }

  lemma {:induction false} DigitsAll(s: string)
    requires forall i :: 0 <= i < |s| ==> IsDigit(s[i])
    ensures AllDigits(s)
    decreases |s|
  {
    if |s| > 0 {
      DigitsAll(s[..|s| - 1]);
    }
  }

  /** The decimal rendering of a natural number, as operator<< writes it. */
  function NatToString(n: nat): (s: string)
    ensures |s| >= 1
    ensures forall i :: 0 <= i < |s| ==> IsDigit(s[i])
    decreases n
  {
    if n < 10 then [DigitChar(n)] else NatToString(n / 10) + [DigitChar(n % 10)]
  }

  /** The decimal rendering of an integer, with a '-' in front of a negative one. */
  function IntToString(i: int): (s: string)
    ensures IsWord(s)
  {
    var s := if i < 0 then "-" + NatToString(-i) else NatToString(i);
    assert forall k :: 0 <= k < |s| ==> s[k] == '-' || IsDigit(s[k]);
    s
  }

  /** The number a string of digits denotes, read from the most significant digit. */
  function DigitsValue(ds: string): (n: nat)
    requires AllDigits(ds)
    decreases |ds|
  {
    if |ds| == 0 then 0 else DigitsValue(ds[..|ds| - 1]) * 10 + DigitValue(ds[|ds| - 1])
  }

  /** Reading a rendered number gives the number back. */
  lemma {:induction false} NatToStringValue(n: nat)
    ensures AllDigits(NatToString(n)) && DigitsValue(NatToString(n)) == n
    decreases n
  {
    DigitsAll(NatToString(n));
    if n >= 10 {
      var s := NatToString(n);
      assert s[..|s| - 1] == NatToString(n / 10);
      NatToStringValue(n / 10);
    }
  }

  /** The length of the run of digits at the head of s. */
  function DigitRun(s: string): (k: nat)
    ensures k <= |s|
    ensures forall i :: 0 <= i < k ==> IsDigit(s[i])
    ensures k < |s| ==> !IsDigit(s[k])
  {
    if s != [] && IsDigit(s[0]) then 1 + DigitRun(s[1..]) else 0
  }

  lemma {:induction false} DigitRunAll(s: string)
    requires forall i :: 0 <= i < |s| ==> IsDigit(s[i])
    ensures DigitRun(s) == |s|
    decreases |s|
  {
    if s != [] {
      DigitRunAll(s[1..]);
    }
  }

  /** The value of the digits at the head of s (0 when there are none). */
  function LeadingValue(s: string): (n: nat)
  {
    DigitsAll(s[..DigitRun(s)]);
    DigitsValue(s[..DigitRun(s)])
  }

  /**
   * std::atoi: leading white space is skipped, an optional sign is read, then
   * the longest run of digits; text without digits gives 0.  (Overflow of a
   * C int is undefined behaviour and is not modelled.)
   */
  function Atoi(s: string): (n: int)
  {
    var t := SkipSpace(s);
    if t != [] && t[0] == '-' then -(LeadingValue(t[1..]) as int)
    else if t != [] && t[0] == '+' then LeadingValue(t[1..])
    else LeadingValue(t)
  }

  /** std::atoi reads back what operator<< writes for an int. */
  lemma AtoiIntToString(i: int)
    ensures Atoi(IntToString(i)) == i
  {
    var s := IntToString(i);
    assert SkipSpace(s) == s;
    if i < 0 {
      var d := NatToString(-i);
      assert s[1..] == d;
      DigitRunAll(d);
      assert d[..|d|] == d;
      NatToStringValue(-i);
    } else {
      var d := NatToString(i);
      DigitRunAll(d);
      assert d[..|d|] == d;
      NatToStringValue(i);
    }
  }

  /** The value of a non-empty string of decimal digits; None if any character is not a digit. */
  function DigitsOf(w: string): (r: Option<nat>)
    decreases |w|
  {
    if |w| == 0 || !IsDigit(w[|w| - 1]) then None
    else if |w| == 1 then Some(DigitValue(w[0]))
    else
      var high := DigitsOf(w[..|w| - 1]);
      if high.None? then None else Some(high.value * 10 + DigitValue(w[|w| - 1]))
  }

  /** A rendered number is all digits and reads back as itself. */
  lemma {:induction false} DigitsOfNatToString(n: nat)
    ensures DigitsOf(NatToString(n)) == Some(n)
    decreases n
  {
    if n >= 10 {
      var s := NatToString(n);
      assert s[..|s| - 1] == NatToString(n / 10);
      DigitsOfNatToString(n / 10);
    }
  }

  /** A word that is a decimal integer with an optional '-' (what operator>> for an int accepts). */
  function ParseInt(w: string): (r: Option<int>)
  {
    if |w| > 1 && w[0] == '-' then
      var d := DigitsOf(w[1..]);
      if d.None? then None else Some(-(d.value as int))
    else DigitsOf(w)
  }

  /** A word of digits only (what operator>> for a size_t accepts here). */
  function ParseNat(w: string): (r: Option<nat>)
  {
    DigitsOf(w)
  }

  lemma ParseIntToString(i: int)
    ensures ParseInt(IntToString(i)) == Some(i)
  {
    var s := IntToString(i);
    if i < 0 {
      assert s[1..] == NatToString(-i);
      DigitsOfNatToString(-i);
    } else {
      DigitsOfNatToString(i);
    }
  }

  lemma ParseNatToString(n: nat)
    ensures ParseNat(NatToString(n)) == Some(n)
  {
    DigitsOfNatToString(n);
  }
}
